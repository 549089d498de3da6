/**
 * The two allow-lists the session consults and the checks made against them:
 * `validate_targets`, `validate_user_perms` and `allowed_modules` of
 * `OffPromptSession` (identical in both copies of the class).
 */
module Policy {
  import opened Wrappers
  import opened PyStr

  /** An `ipaddress` address or network object, identified by its canonical text. */
  datatype IpValue = IpAddress(address: string) | IpNetwork(network: string)

  /**
   * One element of the unpickled allowed-target list. The admin tool stores
   * `ipaddress` objects; a list written by other means may hold plain strings.
   */
  datatype TargetEntry = TextTarget(text: string) | IpTarget(ip: IpValue)

  /** A value of the user-to-modules map: a list of module patterns, or Python's `None`. */
  datatype PermValue = PermList(patterns: seq<string>) | PyNone

  type PermissionMap = map<string, PermValue>

  /** The reserved key whose patterns apply to every user. */
  const AllUsers: string := "ALL"

  // ---------------------------------------------------------------------------
  // validate_targets
  // ---------------------------------------------------------------------------

  /**
   * Python's `t in allowed` for a string `t`: a string is never equal to an
   * `ipaddress` object, so only a plain-string entry can match.
   */
  predicate Listed(t: string, allowed: seq<TargetEntry>) {
    TextTarget(t) in allowed
  }

  datatype TargetCheck = TargetsAllowed | InvalidTarget(target: string)

  /** `i` is the position of the first target that is not on the list. */
  predicate FirstUnlistedAt(targets: seq<string>, allowed: seq<TargetEntry>, i: int) {
    0 <= i < |targets| && !Listed(targets[i], allowed)
    && forall j :: 0 <= j < i ==> Listed(targets[j], allowed)
  }

  /** The outcome of `validate_targets`: success, or the error for the first unlisted target. */
  function CheckTargets(targets: seq<string>, allowed: seq<TargetEntry>): (r: TargetCheck)
    ensures r == TargetsAllowed <==> forall t :: t in targets ==> Listed(t, allowed)
    ensures r.InvalidTarget? ==>
      exists i :: FirstUnlistedAt(targets, allowed, i) && targets[i] == r.target
  {
    if targets == [] then TargetsAllowed
    else if !Listed(targets[0], allowed) then
      assert FirstUnlistedAt(targets, allowed, 0);
      InvalidTarget(targets[0])
    else
      var rest := CheckTargets(targets[1..], allowed);
      assert forall t :: t in targets ==> t == targets[0] || t in targets[1..];
      if rest.InvalidTarget? then
        var i :| FirstUnlistedAt(targets[1..], allowed, i) && targets[1..][i] == rest.target;
        assert FirstUnlistedAt(targets, allowed, i + 1);
        rest
      else rest
  }

  /**
   * `validate_targets`: walks the extracted targets in order and stops at
   * the first one missing from the allowed list (raising `InvalidTargetError`).
   */
  method ValidateTargets(targets: seq<string>, allowed: seq<TargetEntry>) returns (r: TargetCheck)
    ensures r == CheckTargets(targets, allowed)
  {
    var k := 0;
    while k < |targets|
      invariant 0 <= k <= |targets|
      invariant CheckTargets(targets, allowed) == CheckTargets(targets[k..], allowed)
    {
      if !Listed(targets[k], allowed) {
        return InvalidTarget(targets[k]);
      }
      assert targets[k..][1..] == targets[k + 1..];
      k := k + 1;
    }
    return TargetsAllowed;
  }

  // ---------------------------------------------------------------------------
  // allowed_modules and validate_user_perms
  // ---------------------------------------------------------------------------

  /** Why the permission list could not be built: `None + list` raises `TypeError`. */
  datatype PermsError = NoneEntry(key: string)

  /** `perms.get(key, [])`, or the `TypeError` that using a `None` value provokes. */
  function Lookup(perms: PermissionMap, key: string): Result<seq<string>, PermsError> {
    if key !in perms then Ok([])
    else match perms[key]
      case PermList(ps) => Ok(ps)
      case PyNone => Err(NoneEntry(key))
  }

  /** `allowed_modules(user)`: the user's patterns followed by those of `ALL`. */
  function AllowedModules(perms: PermissionMap, user: string): (r: Result<seq<string>, PermsError>)
    ensures r.Ok? <==> Lookup(perms, user).Ok? && Lookup(perms, AllUsers).Ok?
    ensures r.Ok? ==> forall m :: m in r.value <==>
      m in Lookup(perms, user).value || m in Lookup(perms, AllUsers).value
  {
    match Lookup(perms, user)
    case Err(e) => Err(e)
    case Ok(own) =>
      match Lookup(perms, AllUsers)
      case Err(e) => Err(e)
      case Ok(everyone) => Ok(own + everyone)
  }

  /** The user's own patterns come first, those of `ALL` after them, none dropped. */
  lemma AllowedModulesOrder(perms: PermissionMap, user: string)
    requires AllowedModules(perms, user).Ok?
    ensures var r := AllowedModules(perms, user).value;
      var own := Lookup(perms, user).value;
      |r| == |own| + |Lookup(perms, AllUsers).value|
      && r[..|own|] == own && r[|own|..] == Lookup(perms, AllUsers).value
  {
  }

  predicate IsStar(c: char) { c == '*' }

  /** A pattern containing `*` grants every module that starts with it, stars stripped from both ends. */
  predicate WildcardGrants(pattern: string, moduleName: string) {
    '*' in pattern && StartsWith(moduleName, StripBy(pattern, IsStar))
  }

  /** The module is listed exactly, or some wildcard pattern in the list grants it. */
  predicate Permitted(moduleName: string, patterns: seq<string>) {
    moduleName in patterns || exists p :: p in patterns && WildcardGrants(p, moduleName)
  }

  datatype PermCheck = ModuleAllowed | InvalidPermission | PermsFailure(error: PermsError)

  /** The outcome of `validate_user_perms(module)` for the given user and permission map. */
  function CheckPermission(moduleName: string, user: string, perms: PermissionMap): PermCheck {
    match AllowedModules(perms, user)
    case Err(e) => PermsFailure(e)
    case Ok(patterns) => if Permitted(moduleName, patterns) then ModuleAllowed else InvalidPermission
  }

  /**
   * `validate_user_perms`: an exact-membership test, then a scan that returns
   * at the first wildcard pattern granting the module, else
   * `InvalidPermissionError`.
   */
  method ValidateUserPerms(moduleName: string, user: string, perms: PermissionMap) returns (r: PermCheck)
    ensures r.PermsFailure? <==> AllowedModules(perms, user).Err?
    ensures r == ModuleAllowed <==>
      AllowedModules(perms, user).Ok? && Permitted(moduleName, AllowedModules(perms, user).value)
    ensures r == CheckPermission(moduleName, user, perms)
  {
    var allowed := AllowedModules(perms, user);
    if allowed.Err? {
      return PermsFailure(allowed.error);
    }
    var patterns := allowed.value;
    if moduleName !in patterns {
      var k := 0;
      while k < |patterns|
        invariant 0 <= k <= |patterns|
        invariant forall j :: 0 <= j < k ==> !WildcardGrants(patterns[j], moduleName)
      {
        if '*' in patterns[k] {
          if StartsWith(moduleName, StripBy(patterns[k], IsStar)) {
            assert patterns[k] in patterns && WildcardGrants(patterns[k], moduleName);
            return ModuleAllowed;
          }
        }
        k := k + 1;
      }
      return InvalidPermission;
    }
    return ModuleAllowed;
  }
}
