/**
 * The life cycle of local plugins (packages/app-runtime/src/plugin-state.ts:136-217): installed, approved, enabled.
 * The permission hash of a manifest is an arbitrary function; persisting succeeds.
 */
module PluginState {
  import opened Results

  datatype Source = Builtin | Dev | Market

  datatype Manifest = Manifest(name: string, version: string, permissions: string)

  datatype Plugin = Plugin(
    name: string,
    version: string,
    source: Source,
    dir: string,
    permissionHash: string,
    approvedVersion: Option<string>,
    approvedPermissionHash: Option<string>,
    enabled: bool,
    failures: nat)

  type State = map<string, Plugin>

  type Hasher = Manifest -> string

  datatype Op =
    | Discover(manifest: Manifest, source: Source, dir: string)
    | Approve(plugin: string, hash: string)
    | SetEnabled(plugin: string, enabled: bool)
    | Remove(plugin: string)

  datatype PluginError = NotInstalled | ApprovalStale | ApprovalRequired

  predicate IsPluginApproved(p: Plugin) {
    p.approvedVersion == Some(p.version) && p.approvedPermissionHash == Some(p.permissionHash)
  }

  // ---- Operations ----

  predicate StillValid(previous: Option<Plugin>, version: string, hash: string, source: Source) {
    && previous.Some? && previous.value.source == source && previous.value.version == version
    && previous.value.approvedVersion == Some(version) && previous.value.approvedPermissionHash == Some(hash)
  }

  function Discovered(previous: Option<Plugin>, m: Manifest, source: Source, dir: string, hash: string): Plugin {
    var trusted := source == Builtin || source == Dev;
    var valid := StillValid(previous, m.version, hash, source);
    Plugin(m.name, m.version, source, dir, hash,
           if trusted || valid then Some(m.version) else None,
           if trusted || valid then Some(hash) else None,
           if trusted then (if previous.Some? then previous.value.enabled else true)
             else valid && previous.value.enabled,
           if previous.Some? then previous.value.failures else 0)
  }

  function Get(s: State, name: string): Option<Plugin> {
    if name in s then Some(s[name]) else None
  }

  function Refusal(s: State, op: Op): Option<PluginError> {
    match op
    case Approve(name, hash) =>
      if name !in s then Some(NotInstalled) else if s[name].permissionHash != hash then Some(ApprovalStale) else None
    case SetEnabled(name, enabled) =>
      if name !in s then Some(NotInstalled)
      else if enabled && !IsPluginApproved(s[name]) then Some(ApprovalRequired)
      else None
    case Discover(_, _, _) => None
    case Remove(_) => None
  }

  function Apply(s: State, op: Op, hasher: Hasher): State {
    if Refusal(s, op).Some? then s
    else
      match op
      case Discover(m, source, dir) => s[m.name := Discovered(Get(s, m.name), m, source, dir, hasher(m))]
      case Approve(name, hash) =>
        var p := s[name];
        s[name := p.(approvedVersion := Some(p.version), approvedPermissionHash := Some(p.permissionHash))]
      case SetEnabled(name, enabled) => s[name := s[name].(enabled := enabled)]
      case Remove(name) => s - {name}
  }

  function Run(ops: seq<Op>, hasher: Hasher): State {
    if ops == [] then map[] else Apply(Run(ops[..|ops| - 1], hasher), ops[|ops| - 1], hasher)
  }

  // ---- The store ----

  class LocalPluginStateStore {
    const hasher: Hasher
    var plugins: map<string, Plugin>

    constructor (hasher: Hasher)
      ensures plugins == map[] && this.hasher == hasher
    {
      this.hasher := hasher;
      plugins := map[];
    }

    method DiscoverPlugin(manifest: Manifest, source: Source, dir: string) returns (entry: Plugin)
      modifies this
      ensures plugins == Apply(old(plugins), Discover(manifest, source, dir), hasher)
      ensures manifest.name in plugins && entry == plugins[manifest.name]
      ensures entry.version == manifest.version && entry.permissionHash == hasher(manifest)
      ensures entry.source == source && entry.dir == dir
      ensures entry.failures == if manifest.name in old(plugins) then old(plugins)[manifest.name].failures else 0
      ensures forall other :: other != manifest.name ==> Get(plugins, other) == Get(old(plugins), other)
    {
      var hash := hasher(manifest);
      var previous := Get(plugins, manifest.name);
      var trustedLocal := source == Builtin || source == Dev;
      var approvalStillValid :=
        previous.Some? && previous.value.source == source && previous.value.version == manifest.version
        && previous.value.approvedVersion == Some(manifest.version)
        && previous.value.approvedPermissionHash == Some(hash);
      var version, approved := None, None;
      if trustedLocal || approvalStillValid { version, approved := Some(manifest.version), Some(hash); }
      var enabled := approvalStillValid && previous.value.enabled;
      if trustedLocal { enabled := previous.None? || previous.value.enabled; }
      var failures := 0;
      if previous.Some? { failures := previous.value.failures; }
      entry := Plugin(manifest.name, manifest.version, source, dir, hash, version, approved, enabled, failures);
      plugins := plugins[manifest.name := entry];
    }

    method ApprovePlugin(name: string, expectedPermissionHash: string) returns (r: Result<Plugin, PluginError>)
      modifies this
      ensures plugins == Apply(old(plugins), Approve(name, expectedPermissionHash), hasher)
      ensures match Refusal(old(plugins), Approve(name, expectedPermissionHash))
              case None => name in plugins && r == Ok(plugins[name])
              case Some(error) => r == Err(error)
    {
      if name !in plugins { return Err(NotInstalled); }
      var entry := plugins[name];
      if entry.permissionHash != expectedPermissionHash { return Err(ApprovalStale); }
      entry := entry.(approvedVersion := Some(entry.version), approvedPermissionHash := Some(entry.permissionHash));
      plugins := plugins[name := entry];
      return Ok(entry);
    }

    method SetPluginEnabled(name: string, enabled: bool) returns (r: Result<Plugin, PluginError>)
      modifies this
      ensures plugins == Apply(old(plugins), SetEnabled(name, enabled), hasher)
      ensures match Refusal(old(plugins), SetEnabled(name, enabled))
              case None => name in plugins && r == Ok(plugins[name])
              case Some(error) => r == Err(error)
    {
      if name !in plugins { return Err(NotInstalled); }
      var entry := plugins[name];
      if enabled
         && (entry.approvedVersion != Some(entry.version) || entry.approvedPermissionHash != Some(entry.permissionHash))
      {
        return Err(ApprovalRequired);
      }
      entry := entry.(enabled := enabled);
      plugins := plugins[name := entry];
      return Ok(entry);
    }

    method RemovePlugin(name: string)
      modifies this
      ensures plugins == Apply(old(plugins), Remove(name), hasher)
    {
      if name in plugins { plugins := plugins - {name}; }
      assert plugins == old(plugins) - {name};
    }
  }

  // ---- Every reachable state ----

  /** Each entry is stored under its name, keeps only current approvals, and is enabled only if approved. */
  ghost predicate Sound(s: State) {
    forall name :: name in s ==>
      && s[name].name == name
      && (s[name].approvedVersion.Some? || s[name].approvedPermissionHash.Some? ==> IsPluginApproved(s[name]))
      && (s[name].enabled ==> IsPluginApproved(s[name]))
  }

  lemma {:induction false} EnabledMeansApproved(ops: seq<Op>, hasher: Hasher)
    ensures Sound(Run(ops, hasher))
    decreases |ops|
  {
    if ops != [] {
      EnabledMeansApproved(ops[..|ops| - 1], hasher);
    }
  }

  /** What a later operation must not do, for an approval of this version and hash to last. */
  predicate Disturbs(op: Op, hasher: Hasher, name: string, version: string, hash: string) {
    match op
    case Discover(m, source, _) => m.name == name && !(source == Market && m.version == version && hasher(m) == hash)
    case Remove(other) => other == name
    case Approve(_, _) => false
    case SetEnabled(_, _) => false
  }

  /** Operation `i` approved this very version and hash of a market plugin, and nothing has disturbed that since. */
  ghost predicate ApprovedBy(ops: seq<Op>, hasher: Hasher, i: nat, name: string, version: string, hash: string)
    requires i < |ops|
  {
    var before := Run(ops[..i], hasher);
    && ops[i] == Approve(name, hash)
    && name in before && before[name].source == Market
    && before[name].version == version && before[name].permissionHash == hash
    && forall k :: i < k < |ops| ==> !Disturbs(ops[k], hasher, name, version, hash)
  }

  /** Operation `j` enabled the plugin, which nothing has disabled since. */
  ghost predicate EnabledBy(ops: seq<Op>, j: nat, name: string)
    requires j < |ops|
  {
    ops[j] == SetEnabled(name, true) && forall k :: j < k < |ops| ==> ops[k] != SetEnabled(name, false)
  }

  ghost predicate WasApproved(ops: seq<Op>, hasher: Hasher, p: Plugin) {
    exists i :: 0 <= i < |ops| && ApprovedBy(ops, hasher, i, p.name, p.version, p.permissionHash)
  }

  ghost predicate WasEnabledAfter(ops: seq<Op>, hasher: Hasher, p: Plugin) {
    exists i, j :: 0 <= i < j < |ops|
      && ApprovedBy(ops, hasher, i, p.name, p.version, p.permissionHash) && EnabledBy(ops, j, p.name)
  }

  lemma ApprovalLasts(ops: seq<Op>, hasher: Hasher, i: nat, name: string, version: string, hash: string)
    requires i + 1 < |ops| && ApprovedBy(ops[..|ops| - 1], hasher, i, name, version, hash)
    requires !Disturbs(ops[|ops| - 1], hasher, name, version, hash)
    ensures ApprovedBy(ops, hasher, i, name, version, hash)
  {
    assert ops[..|ops| - 1][..i] == ops[..i];
    forall k | i < k < |ops| ensures !Disturbs(ops[k], hasher, name, version, hash) {
      if k < |ops| - 1 { assert ops[k] == ops[..|ops| - 1][k]; }
    }
  }

  lemma EnablingLasts(ops: seq<Op>, j: nat, name: string)
    requires j + 1 < |ops| && EnabledBy(ops[..|ops| - 1], j, name) && ops[|ops| - 1] != SetEnabled(name, false)
    ensures EnabledBy(ops, j, name)
  {
    forall k | j < k < |ops| ensures ops[k] != SetEnabled(name, false) {
      if k < |ops| - 1 { assert ops[k] == ops[..|ops| - 1][k]; }
    }
  }

  /** What an operation leaves approved or enabled was so before, or is so by that operation. */
  lemma StepReasons(s: State, op: Op, hasher: Hasher, name: string)
    requires Sound(s) && name in Apply(s, op, hasher) && Apply(s, op, hasher)[name].source == Market
    requires IsPluginApproved(Apply(s, op, hasher)[name])
    ensures var p := Apply(s, op, hasher)[name];
            && name in s && p.name == s[name].name == name
            && !Disturbs(op, hasher, name, p.version, p.permissionHash)
            && (s[name].source == Market && s[name].version == p.version && s[name].permissionHash == p.permissionHash)
            && (IsPluginApproved(s[name]) || op == Approve(name, p.permissionHash))
            && (p.enabled ==> IsPluginApproved(s[name]) && op != SetEnabled(name, false)
                              && (s[name].enabled || op == SetEnabled(name, true)))
  {}

  /**
   * A market plugin that is approved was approved in exactly this version and with exactly this hash; if it is enabled,
   * it was enabled after that. Nothing in between removed it or discovered it otherwise.
   */
  lemma {:induction false} MarketPluginsAreApprovedThenEnabled(ops: seq<Op>, hasher: Hasher, name: string)
    requires name in Run(ops, hasher) && Run(ops, hasher)[name].source == Market
    requires IsPluginApproved(Run(ops, hasher)[name])
    ensures var p := Run(ops, hasher)[name];
            && p.name == name && WasApproved(ops, hasher, p)
            && (p.enabled ==> WasEnabledAfter(ops, hasher, p))
    decreases |ops|
  {
    hide Apply, Disturbs, IsPluginApproved, Sound, ApprovedBy, EnabledBy;
    var n := |ops| - 1;
    var front, op := ops[..n], ops[n];
    var s, p := Run(front, hasher), Run(ops, hasher)[name];
    EnabledMeansApproved(front, hasher);
    StepReasons(s, op, hasher, name);
    if IsPluginApproved(s[name]) {
      MarketPluginsAreApprovedThenEnabled(front, hasher, name);
      var i :| 0 <= i < n && ApprovedBy(front, hasher, i, name, p.version, p.permissionHash);
      ApprovalLasts(ops, hasher, i, name, p.version, p.permissionHash);
      if p.enabled && s[name].enabled {
        var a, j :| 0 <= a < j < n
          && ApprovedBy(front, hasher, a, name, p.version, p.permissionHash) && EnabledBy(front, j, name);
        ApprovalLasts(ops, hasher, a, name, p.version, p.permissionHash);
        EnablingLasts(ops, j, name);
      } else if p.enabled {
        LastEnables(ops, name);
      }
    } else {
      LastApproves(ops, hasher, name, p);
    }
  }

  lemma LastEnables(ops: seq<Op>, name: string)
    requires ops != [] && ops[|ops| - 1] == SetEnabled(name, true)
    ensures EnabledBy(ops, |ops| - 1, name)
  {}

  lemma LastApproves(ops: seq<Op>, hasher: Hasher, name: string, p: Plugin)
    requires ops != [] && ops[|ops| - 1] == Approve(name, p.permissionHash)
    requires var s := Run(ops[..|ops| - 1], hasher);
             name in s && s[name].source == Market && s[name].version == p.version
             && s[name].permissionHash == p.permissionHash
    ensures ApprovedBy(ops, hasher, |ops| - 1, name, p.version, p.permissionHash)
  {}

  // ---- What was granted stands ----

  lemma ApprovalStepStands(s: State, op: Op, hasher: Hasher, name: string, version: string, hash: string)
    requires name in s && s[name].source == Market && s[name].version == version && s[name].permissionHash == hash
    requires IsPluginApproved(s[name]) && !Disturbs(op, hasher, name, version, hash)
    ensures name in Apply(s, op, hasher)
    ensures
      var p := Apply(s, op, hasher)[name];
      && p.source == Market && p.version == version && p.permissionHash == hash && IsPluginApproved(p)
      && (p.enabled <==> op == SetEnabled(name, true) || (s[name].enabled && op != SetEnabled(name, false)))
  {}

  lemma {:induction false} ApprovalStands(ops: seq<Op>, hasher: Hasher, i: nat, name: string, version: string,
                                          hash: string)
    requires i < |ops| && ApprovedBy(ops, hasher, i, name, version, hash)
    ensures name in Run(ops, hasher)
    ensures
      var p := Run(ops, hasher)[name];
      p.source == Market && p.version == version && p.permissionHash == hash && IsPluginApproved(p)
    decreases |ops|
  {
    var n := |ops| - 1;
    if i < n {
      assert ops[..n][..i] == ops[..i];
      ApprovalStands(ops[..n], hasher, i, name, version, hash);
      ApprovalStepStands(Run(ops[..n], hasher), ops[n], hasher, name, version, hash);
    }
  }

  lemma {:induction false} EnablingStands(ops: seq<Op>, hasher: Hasher, i: nat, j: nat, name: string, version: string,
                                          hash: string)
    requires i < j < |ops| && ApprovedBy(ops, hasher, i, name, version, hash) && EnabledBy(ops, j, name)
    ensures name in Run(ops, hasher) && Run(ops, hasher)[name].enabled
    decreases |ops|
  {
    var n := |ops| - 1;
    assert ops[..n][..i] == ops[..i];
    hide Apply, Disturbs, IsPluginApproved;
    ApprovalStands(ops[..n], hasher, i, name, version, hash);
    ApprovalStepStands(Run(ops[..n], hasher), ops[n], hasher, name, version, hash);
    if j < n {
      EnablingStands(ops[..n], hasher, i, j, name, version, hash);
    }
  }

  /**
   * The life cycle of market plugins, exactly: one is approved if and only if it was approved in its version and hash
   * and not disturbed since, and enabled if and only if it was enabled after that and not disabled since.
   */
  lemma MarketPluginsIff(ops: seq<Op>, hasher: Hasher, name: string)
    requires name in Run(ops, hasher) && Run(ops, hasher)[name].source == Market
    ensures
      var p := Run(ops, hasher)[name];
      && p.name == name
      && (IsPluginApproved(p) <==> WasApproved(ops, hasher, p))
      && (p.enabled <==> WasEnabledAfter(ops, hasher, p))
  {
    hide Apply, Run, ApprovedBy, EnabledBy, Discovered;
    var p := Run(ops, hasher)[name];
    EnabledMeansApproved(ops, hasher);
    if IsPluginApproved(p) {
      MarketPluginsAreApprovedThenEnabled(ops, hasher, name);
    }
    hide IsPluginApproved, Sound;
    if WasApproved(ops, hasher, p) {
      var i :| 0 <= i < |ops| && ApprovedBy(ops, hasher, i, p.name, p.version, p.permissionHash);
      ApprovalStands(ops, hasher, i, p.name, p.version, p.permissionHash);
    }
    if WasEnabledAfter(ops, hasher, p) {
      var i, j :| 0 <= i < j < |ops|
        && ApprovedBy(ops, hasher, i, p.name, p.version, p.permissionHash) && EnabledBy(ops, j, p.name);
      EnablingStands(ops, hasher, i, j, p.name, p.version, p.permissionHash);
    }
  }

  // ---- Trusted plugins ----

  /** Operation `j` disabled the installed plugin, which nothing has enabled or removed since. */
  ghost predicate DisabledBy(ops: seq<Op>, hasher: Hasher, j: nat, name: string)
    requires j < |ops|
  {
    && ops[j] == SetEnabled(name, false) && name in Run(ops[..j], hasher)
    && forall k :: j < k < |ops| ==> ops[k] != SetEnabled(name, true) && ops[k] != Remove(name)
  }

  ghost predicate WasDisabled(ops: seq<Op>, hasher: Hasher, name: string) {
    exists j :: 0 <= j < |ops| && DisabledBy(ops, hasher, j, name)
  }

  /** What holds of a plugin discovered as builtin or dev only; `disabled` says whether it was disabled. */
  predicate TrustedIs(s: State, name: string, disabled: bool) {
    if name in s then s[name].source != Market && IsPluginApproved(s[name]) && (s[name].enabled <==> !disabled)
    else !disabled
  }

  lemma TrustedStep(s: State, op: Op, hasher: Hasher, name: string, disabled: bool)
    requires op.Discover? && op.manifest.name == name ==> op.source != Market
    requires TrustedIs(s, name, disabled)
    ensures TrustedIs(Apply(s, op, hasher), name,
                      || (op == SetEnabled(name, false) && name in s)
                      || (disabled && op != SetEnabled(name, true) && op != Remove(name)))
  {}

  lemma DisablingStep(ops: seq<Op>, op: Op, hasher: Hasher, name: string)
    ensures WasDisabled(ops + [op], hasher, name) <==>
      || (op == SetEnabled(name, false) && name in Run(ops, hasher))
      || (WasDisabled(ops, hasher, name) && op != SetEnabled(name, true) && op != Remove(name))
  {
    hide Run;
    var all, n := ops + [op], |ops|;
    assert all[..n] == ops && forall j :: 0 <= j < n ==> all[j] == ops[j] && all[..j] == ops[..j];
    forall j | 0 <= j < n
      ensures DisabledBy(all, hasher, j, name) <==>
        DisabledBy(ops, hasher, j, name) && op != SetEnabled(name, true) && op != Remove(name)
    {
      if DisabledBy(all, hasher, j, name) {
        assert all[n] == op;
        forall k | j < k < n ensures ops[k] != SetEnabled(name, true) && ops[k] != Remove(name) {
          assert all[k] == ops[k];
        }
      }
    }
    if op == SetEnabled(name, false) && name in Run(ops, hasher) {
      assert DisabledBy(all, hasher, n, name);
    }
    if WasDisabled(ops, hasher, name) && op != SetEnabled(name, true) && op != Remove(name) {
      var j :| 0 <= j < n && DisabledBy(ops, hasher, j, name);
      assert DisabledBy(all, hasher, j, name);
    }
  }

  /** An installed plugin that was only ever discovered as builtin or dev is approved, and enabled unless disabled. */
  lemma {:induction false} TrustedPluginsIff(ops: seq<Op>, hasher: Hasher, name: string)
    requires forall k :: 0 <= k < |ops| && ops[k].Discover? && ops[k].manifest.name == name ==> ops[k].source != Market
    ensures TrustedIs(Run(ops, hasher), name, WasDisabled(ops, hasher, name))
    decreases |ops|
  {
    if ops != [] {
      hide Apply, WasDisabled, TrustedIs;
      var front, op := ops[..|ops| - 1], ops[|ops| - 1];
      TrustedPluginsIff(front, hasher, name);
      TrustedStep(Run(front, hasher), op, hasher, name, WasDisabled(front, hasher, name));
      DisablingStep(front, op, hasher, name);
      assert ops == front + [op];
    }
  }

  // ---- Old approvals ----

  function RunFrom(s: State, ops: seq<Op>, hasher: Hasher): State {
    if ops == [] then s else Apply(RunFrom(s, ops[..|ops| - 1], hasher), ops[|ops| - 1], hasher)
  }

  /** The plugin is not an approved or enabled market plugin of this version and hash. */
  predicate NotApprovedAs(s: State, name: string, version: string, hash: string) {
    name in s && s[name].source == Market ==>
      && (s[name].approvedVersion == Some(version) ==> s[name].approvedPermissionHash != Some(hash))
      && (s[name].enabled ==> IsPluginApproved(s[name]))
  }

  lemma {:induction false} StaysUnapproved(s: State, ops: seq<Op>, hasher: Hasher, name: string, version: string,
                                           hash: string)
    requires NotApprovedAs(s, name, version, hash)
    requires forall k :: 0 <= k < |ops| && ops[k].Approve? ==> ops[k].plugin != name
    ensures NotApprovedAs(RunFrom(s, ops, hasher), name, version, hash)
    decreases |ops|
  {
    if ops != [] {
      StaysUnapproved(s, ops[..|ops| - 1], hasher, name, version, hash);
    }
  }

  /**
   * Once a market plugin was discovered under another version or hash, only approving it anew makes the old
   * one approved or enabled again, whatever other operations there are and however often it is discovered.
   */
  lemma {:induction false} OldApprovalIsNotRevived(s: State, hasher: Hasher, other: Manifest, dir: string,
                                                   ops: seq<Op>, m: Manifest, oldDir: string)
    requires other.name == m.name && (other.version != m.version || hasher(other) != hasher(m))
    requires forall k :: 0 <= k < |ops| && ops[k].Approve? ==> ops[k].plugin != m.name
    ensures
      var mid := RunFrom(Apply(s, Discover(other, Market, dir), hasher), ops, hasher);
      var r := Apply(mid, Discover(m, Market, oldDir), hasher);
      m.name in r && !IsPluginApproved(r[m.name]) && !r[m.name].enabled
  {
    var first := Apply(s, Discover(other, Market, dir), hasher);
    StaysUnapproved(first, ops, hasher, m.name, m.version, hasher(m));
  }
}
