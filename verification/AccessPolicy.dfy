/** Effective policies of the AI command line (`apiAnalysis/ai_cli/policy.py`): access presets, policy files
    and per-tool fragments. */
module AccessPolicy {
  import opened Wrappers

  datatype Access = ReadOnly | WorkspaceWrite | FullAccess | Custom

  datatype Approval = Always | OnRisk | Never

  datatype Status = Allowed | Denied | Unknown

  datatype Policy = Policy(access: Access, approval: Approval, capabilities: map<string, bool>, allowTools: map<string, bool>)

  /** A policy file, its defaults filled in. */
  datatype PolicyFile = PolicyFile(access: Access, approval: Approval, capabilities: map<string, bool>)

  /** A fragment file; the name is empty for one that names no tool. */
  datatype Fragment = Fragment(tool: string, allow: bool)

  const READS := ["project.read", "data.read", "filesystem.read"]
  const WRITES := ["filesystem.write"]
  const EFFECTS := ["network.request", "command.shell", "api.mutation", "plugin"]

  /** The preset of an access; `custom` has none. */
  function Preset(access: Access): map<string, bool> {
    if access == Custom then map[]
    else
      map capability | capability in READS + WRITES + EFFECTS ::
        capability in READS || access == FullAccess || (access == WorkspaceWrite && capability in WRITES)
  }

  function StatusIn(capabilities: map<string, bool>, capability: string): Status {
    if capability !in capabilities then Unknown else if capabilities[capability] then Allowed else Denied
  }

  /** `capability_status`. */
  function StatusOf(policy: Policy, capability: string): Status {
    if capability in policy.capabilities then (if policy.capabilities[capability] then Allowed else Denied)
    else
      var preset := Preset(policy.access);
      if preset != map[] && capability in preset then (if preset[capability] then Allowed else Denied)
      else Unknown
  }

  /** `policy_from_file`. */
  function FromFile(file: PolicyFile): Policy {
    Policy(file.access, file.approval, if file.access == Custom then file.capabilities else Preset(file.access) + file.capabilities, map[])
  }

  function Merged(rules: map<string, bool>, fragments: seq<Fragment>): map<string, bool> {
    if fragments == [] then rules
    else
      var before, last := Merged(rules, fragments[..|fragments| - 1]), fragments[|fragments| - 1];
      if last.tool == "" then before else before[last.tool := last.allow]
  }

  /** `compose_policy`. The preset is copied first, and the capabilities of the file go over it. */
  function Compose(access: Access, approval: Approval, file: Option<PolicyFile>, fragments: seq<Fragment>): Policy {
    var policy :=
      if file.None? then Policy(access, approval, Preset(access), map[])
      else
        var loaded := FromFile(file.value);
        if access == ReadOnly && approval == OnRisk then loaded
        else if access == Custom then loaded.(access := access, approval := approval)
        else loaded.(access := access, approval := approval, capabilities := Preset(access) + loaded.capabilities);
    policy.(allowTools := Merged(policy.allowTools, fragments))
  }

  /** `merge_fragments`, over the fragments in the order of their file names. */
  method MergeFragments(rules: map<string, bool>, fragments: seq<Fragment>) returns (merged: map<string, bool>)
    ensures merged == Merged(rules, fragments)
  {
    merged := rules;
    for i := 0 to |fragments|
      invariant merged == Merged(rules, fragments[..i])
    {
      assert fragments[..i + 1][..i] == fragments[..i];
      if fragments[i].tool == "" {
        continue;
      }
      merged := merged[fragments[i].tool := fragments[i].allow];
    }
    assert fragments[..|fragments|] == fragments;
  }

  /** The fragment at `i` gives the tool this rule, and no later one names the tool. */
  ghost predicate Decides(fragments: seq<Fragment>, i: nat, tool: string, rule: bool) {
    i < |fragments| && fragments[i] == Fragment(tool, rule) && forall k | i < k < |fragments| :: fragments[k].tool != tool
  }

  /** The last fragment that names a tool decides for it. */
  lemma {:induction false} LastFragmentWins(rules: map<string, bool>, fragments: seq<Fragment>, tool: string)
    ensures var merged := Merged(rules, fragments);
            if exists i | 0 <= i < |fragments| :: fragments[i].tool == tool != ""
            then tool in merged && exists i :: Decides(fragments, i, tool, merged[tool])
            else StatusIn(merged, tool) == StatusIn(rules, tool)
  {
    if fragments != [] {
      var front, last := fragments[..|fragments| - 1], fragments[|fragments| - 1];
      LastFragmentWins(rules, front, tool);
      assert forall i | 0 <= i < |front| :: front[i] == fragments[i];
      if last.tool == tool != "" {
        assert Decides(fragments, |front|, tool, Merged(rules, fragments)[tool]);
      } else if exists i | 0 <= i < |front| :: front[i].tool == tool != "" {
        var i: nat :| Decides(front, i, tool, Merged(rules, front)[tool]);
        assert Decides(fragments, i, tool, Merged(rules, fragments)[tool]);
      }
    }
  }

  lemma PresetsDecideTheSame(a: Access, b: Access)
    requires a != Custom && b != Custom
    ensures Preset(a).Keys == Preset(b).Keys && Preset(a).Keys != {}
  {
    assert "plugin" in EFFECTS;
    assert "plugin" in Preset(a);
  }

  /** The status of every capability under a composed policy. An access given next to a policy file only
      has an effect on capabilities that a `custom` file leaves out: presets all decide the same
      capabilities, and those of the file go over them. */
  lemma ComposedStatus(access: Access, approval: Approval, file: Option<PolicyFile>, fragments: seq<Fragment>, capability: string)
    ensures StatusOf(Compose(access, approval, file, fragments), capability)
            == if file.None? then StatusIn(Preset(access), capability)
               else if capability in file.value.capabilities then StatusIn(file.value.capabilities, capability)
               else if file.value.access != Custom then StatusIn(Preset(file.value.access), capability)
               else if access == ReadOnly && approval == OnRisk then Unknown
               else StatusIn(Preset(access), capability)
  {
    if file.Some? && file.value.access != Custom && access != Custom {
      PresetsDecideTheSame(access, file.value.access);
    }
  }

  /** Asking for read-only access next to a policy file with a preset does not narrow it. */
  lemma AccessDoesNotNarrowAFile(access: Access, approval: Approval, file: PolicyFile, fragments: seq<Fragment>, capability: string)
    requires file.access != Custom
    ensures StatusOf(Compose(access, approval, Some(file), fragments), capability) == StatusOf(FromFile(file), capability)
  {
    ComposedStatus(access, approval, Some(file), fragments, capability);
  }
}
