/**
 The path predicates of the recommender: which manifest paths are tests or
 snapshots, which are system-critical code, which look like prompt content,
 which component a path belongs to, and which manifest lines are acceptable
 relative paths.
 */
module Rules {
  import opened Text

  /** The components a prompt file can belong to. */
  datatype Component =
    | RooCode | SkillCodeAgent | SkillIpConfigManager | PromptAgentWorkspace
    | AidraxAgentStandards | EnterprisePrompts | General
  {
    /** The name the program uses for the component: the key of the detection
        map and the text written to the reports. */
    function Name(): string {
      match this
      case RooCode => "roo_code"
      case SkillCodeAgent => "skill_code_agent"
      case SkillIpConfigManager => "skill_ip_config_manager"
      case PromptAgentWorkspace => "prompt_agent_workspace"
      case AidraxAgentStandards => "aidrax_agent_standards"
      case EnterprisePrompts => "enterprise_prompts"
      case General => "general"
    }
  }

  /** The components, in report order. */
  const COMPONENTS: seq<Component> := [
    RooCode, SkillCodeAgent, SkillIpConfigManager, PromptAgentWorkspace,
    AidraxAgentStandards, EnterprisePrompts, General
  ]

  /** `COMPONENTS` lists every component once, and no two components share a name. */
  lemma ComponentsListed()
    ensures forall c: Component :: c in COMPONENTS
    ensures forall i, j :: 0 <= i < j < |COMPONENTS| ==> COMPONENTS[i] != COMPONENTS[j]
    ensures forall c: Component, d: Component :: c.Name() == d.Name() ==> c == d
  {
    forall c: Component ensures c in COMPONENTS {
      match c
      case RooCode =>
      case SkillCodeAgent =>
      case SkillIpConfigManager =>
      case PromptAgentWorkspace =>
      case AidraxAgentStandards =>
      case EnterprisePrompts =>
      case General =>
    }
  }

  /** Tests and snapshots; note that this check is case-sensitive. */
  predicate IsNotNeeded(rel: string) {
    Contains(rel, "/__tests__/") || EndsWith(rel, ".spec.ts") || EndsWith(rel, ".snap")
  }

  /** A path is not needed exactly when `/__tests__/` appears at some
      position of it or it ends in `.spec.ts` or `.snap`. */
  lemma NotNeededIff(rel: string)
    ensures IsNotNeeded(rel) <==>
      ((exists i :: OccursAt(rel, "/__tests__/", i)) || EndsWith(rel, ".spec.ts") || EndsWith(rel, ".snap"))
  {
    ContainsIff(rel, "/__tests__/");
  }

  /** Code files, and the Roo-Code sources. */
  predicate IsSystemCritical(rel: string) {
    var lower := Lower(rel);
    if EndsWith(lower, ".ts") || EndsWith(lower, ".js") || EndsWith(lower, ".py") || EndsWith(lower, ".sh") then true
    else if StartsWith(lower, "roo-code/src/") then true
    else if StartsWith(lower, "roo-code/webview-ui/src/components/") then true
    else false
  }

  /** Files that look like prompts or prompt templates. */
  predicate IsPromptContent(rel: string) {
    var lower := Lower(rel);
    var filename := Lower(BaseName(rel));
    if Contains(lower, "/prompts/") || Contains(lower, "/templates/") then true
    else if Contains(filename, "prompt") then true
    else if EndsWith(lower, "system_prompt.txt") then true
    else if EndsWith(lower, "support-prompt.ts") then true
    else false
  }

  /** The component a manifest path belongs to; the first rule that matches decides. */
  function ClassifyComponent(rel: string): Component {
    var lower := Lower(rel);
    if StartsWith(lower, "roo-code/") || Contains(lower, "/roo-code/") then
      RooCode
    else if
      || StartsWith(lower, "skills/code-agent/")
      || Contains(lower, "/skills/code-agent/")
      || Contains(lower, "/aidrax-core-skills/skills/code-agent/")
    then
      SkillCodeAgent
    else if
      || StartsWith(lower, "skills/ip-config-manager/")
      || Contains(lower, "/skills/ip-config-manager/")
      || Contains(lower, "/aidrax-core-skills/skills/ip-config-manager/")
    then
      SkillIpConfigManager
    else if Contains(lower, "aidrax_prompt_und_agenten/") then
      PromptAgentWorkspace
    else if Contains(lower, "/aidrax-agent/standards/") || StartsWith(lower, "downloads/aidrax-agent/standards/") then
      AidraxAgentStandards
    else if Contains(lower, "/aidrax-enterprise/prompts/") || StartsWith(lower, "aidrax-enterprise/prompts/") then
      EnterprisePrompts
    else
      General
  }

  /** A manifest line is a usable relative path unless it is blank, absolute,
      or has a `..` part. */
  predicate IsValidRelativePath(rel: string) {
    if Strip(rel) == [] then false
    else if StartsWith(rel, "/") then false
    else if ".." in Split(rel, '/') then false
    else true
  }

  /** The three rejection reasons, each stated on the characters of the line. */
  lemma ValidRelativePathIff(rel: string)
    ensures IsValidRelativePath(rel) <==>
      !AllSpace(rel) && !(|rel| > 0 && rel[0] == '/') && !HasParentSegment(rel)
  {
    StripEmptyIff(rel);
    SplitParentSegment(rel);
    assert StartsWith(rel, "/") <==> |rel| > 0 && rel[0] == '/' by {
      if |rel| > 0 {
        assert rel[..1] == [rel[0]];
      }
    }
  }

  /** A path that starts with a visible character other than `/` and has no
      `.` at all is accepted. */
  lemma DotFreeIsValid(rel: string)
    requires rel != [] && !IsSpace(rel[0]) && rel[0] != '/' && '.' !in rel
    ensures IsValidRelativePath(rel)
  {
    ValidRelativePathIff(rel);
  }

  /** Scenario: a path with a `..` part is rejected, wherever the part stands. */
  lemma ParentSegmentIsInvalid(rel: string, i: int)
    requires ParentSegmentAt(rel, i)
    ensures !IsValidRelativePath(rel)
  {
    ValidRelativePathIff(rel);
  }

  /** One row of the component table: a lower-cased path matches when it
      starts with one of `prefixes` or contains one of `infixes`. */
  datatype Rule = Rule(component: Component, prefixes: seq<string>, infixes: seq<string>)

  predicate Matches(rule: Rule, lower: string) {
    StartsWithAny(lower, rule.prefixes) || ContainsAny(lower, rule.infixes)
  }

  predicate StartsWithAny(s: string, prefixes: seq<string>) {
    prefixes != [] && (StartsWith(s, prefixes[0]) || StartsWithAny(s, prefixes[1..]))
  }

  predicate ContainsAny(s: string, infixes: seq<string>) {
    infixes != [] && (Contains(s, infixes[0]) || ContainsAny(s, infixes[1..]))
  }

  /** The component rules as a declarative table, in priority order; a path no
      row matches is `general`. */
  const COMPONENT_RULES: seq<Rule> := [
    Rule(RooCode, ["roo-code/"], ["/roo-code/"]),
    Rule(SkillCodeAgent, ["skills/code-agent/"],
      ["/skills/code-agent/", "/aidrax-core-skills/skills/code-agent/"]),
    Rule(SkillIpConfigManager, ["skills/ip-config-manager/"],
      ["/skills/ip-config-manager/", "/aidrax-core-skills/skills/ip-config-manager/"]),
    Rule(PromptAgentWorkspace, [], ["aidrax_prompt_und_agenten/"]),
    Rule(AidraxAgentStandards, ["downloads/aidrax-agent/standards/"], ["/aidrax-agent/standards/"]),
    Rule(EnterprisePrompts, ["aidrax-enterprise/prompts/"], ["/aidrax-enterprise/prompts/"])
  ]

  /** The component of the first row that matches, or `general`. */
  function FirstMatch(rules: seq<Rule>, lower: string): Component {
    if rules == [] then General
    else if Matches(rules[0], lower) then rules[0].component
    else FirstMatch(rules[1..], lower)
  }

  /** Row `k` is the first row that matches `lower`. */
  predicate FirstMatchAt(rules: seq<Rule>, lower: string, k: int) {
    0 <= k < |rules| && Matches(rules[k], lower) && forall j :: 0 <= j < k ==> !Matches(rules[j], lower)
  }

  /** FirstMatch answers with the component of the earliest matching row, and
      with `general` when no row matches. */
  lemma {:induction false} FirstMatchIsFirst(rules: seq<Rule>, lower: string, k: int)
    ensures FirstMatchAt(rules, lower, k) ==> FirstMatch(rules, lower) == rules[k].component
    ensures (forall j :: 0 <= j < |rules| ==> !Matches(rules[j], lower)) ==> FirstMatch(rules, lower) == General
  {
    if rules != [] && !Matches(rules[0], lower) {
      FirstMatchIsFirst(rules[1..], lower, k - 1);
      if FirstMatchAt(rules, lower, k) {
        assert k > 0;
        assert FirstMatchAt(rules[1..], lower, k - 1) by {
          forall j | 0 <= j < k - 1 ensures !Matches(rules[1..][j], lower) {
            assert rules[1..][j] == rules[j + 1];
          }
        }
      }
      if forall j :: 0 <= j < |rules| ==> !Matches(rules[j], lower) {
        forall j | 0 <= j < |rules[1..]| ensures !Matches(rules[1..][j], lower) {
          assert rules[1..][j] == rules[j + 1];
        }
      }
    }
  }

  /** Each row of the table matches exactly when the corresponding condition
      of ClassifyComponent holds. */
  lemma RowConditions(lower: string)
    ensures Matches(COMPONENT_RULES[0], lower) <==> StartsWith(lower, "roo-code/") || Contains(lower, "/roo-code/")
    ensures Matches(COMPONENT_RULES[1], lower) <==>
      StartsWith(lower, "skills/code-agent/") || Contains(lower, "/skills/code-agent/")
      || Contains(lower, "/aidrax-core-skills/skills/code-agent/")
    ensures Matches(COMPONENT_RULES[2], lower) <==>
      StartsWith(lower, "skills/ip-config-manager/") || Contains(lower, "/skills/ip-config-manager/")
      || Contains(lower, "/aidrax-core-skills/skills/ip-config-manager/")
    ensures Matches(COMPONENT_RULES[3], lower) <==> Contains(lower, "aidrax_prompt_und_agenten/")
    ensures Matches(COMPONENT_RULES[4], lower) <==>
      Contains(lower, "/aidrax-agent/standards/") || StartsWith(lower, "downloads/aidrax-agent/standards/")
    ensures Matches(COMPONENT_RULES[5], lower) <==>
      Contains(lower, "/aidrax-enterprise/prompts/") || StartsWith(lower, "aidrax-enterprise/prompts/")
  {
    var rules := COMPONENT_RULES;
    AnyOfOne(lower, rules[0].prefixes[0], rules[0].infixes[0]);
    AnyOfOne(lower, rules[1].prefixes[0], rules[1].infixes[0]);
    AnyOfTwo(lower, rules[1].infixes[0], rules[1].infixes[1]);
    AnyOfOne(lower, rules[2].prefixes[0], rules[2].infixes[0]);
    AnyOfTwo(lower, rules[2].infixes[0], rules[2].infixes[1]);
    AnyOfOne(lower, "", rules[3].infixes[0]);
    AnyOfOne(lower, rules[4].prefixes[0], rules[4].infixes[0]);
    AnyOfOne(lower, rules[5].prefixes[0], rules[5].infixes[0]);
  }

  lemma AnyOfOne(s: string, p: string, t: string)
    ensures StartsWithAny(s, [p]) <==> StartsWith(s, p)
    ensures ContainsAny(s, [t]) <==> Contains(s, t)
  {
    assert [p][1..] == [] && [t][1..] == [];
  }

  lemma AnyOfTwo(s: string, t: string, u: string)
    ensures ContainsAny(s, [t, u]) <==> Contains(s, t) || Contains(s, u)
  {
    assert [t, u][1..] == [u];
    AnyOfOne(s, "", u);
  }

  /** The if-chain of ClassifyComponent is the table read top to bottom. */
  lemma ClassifyFollowsTable(rel: string)
    ensures ClassifyComponent(rel) == FirstMatch(COMPONENT_RULES, Lower(rel))
  {
    var lower, rules := Lower(rel), COMPONENT_RULES;
    RowConditions(lower);
    assert FirstMatch(rules[6..], lower) == General;
    assert FirstMatch(rules[5..], lower) == if Matches(rules[5], lower) then rules[5].component else FirstMatch(rules[6..], lower);
    assert FirstMatch(rules[4..], lower) == if Matches(rules[4], lower) then rules[4].component else FirstMatch(rules[5..], lower);
    assert FirstMatch(rules[3..], lower) == if Matches(rules[3], lower) then rules[3].component else FirstMatch(rules[4..], lower);
    assert FirstMatch(rules[2..], lower) == if Matches(rules[2], lower) then rules[2].component else FirstMatch(rules[3..], lower);
    assert FirstMatch(rules[1..], lower) == if Matches(rules[1], lower) then rules[1].component else FirstMatch(rules[2..], lower);
  }

  /** A `roo-code/` path is `roo_code` whatever the later rows say, and a path
      no row matches is `general`. */
  lemma ClassifyPriority(rel: string, k: int)
    ensures FirstMatchAt(COMPONENT_RULES, Lower(rel), k) ==> ClassifyComponent(rel) == COMPONENT_RULES[k].component
    ensures Matches(COMPONENT_RULES[0], Lower(rel)) ==> ClassifyComponent(rel) == RooCode
    ensures ClassifyComponent(rel) == General <==>
      forall j :: 0 <= j < |COMPONENT_RULES| ==> !Matches(COMPONENT_RULES[j], Lower(rel))
  {
    ClassifyFollowsTable(rel);
    FirstMatchIsFirst(COMPONENT_RULES, Lower(rel), k);
    RowConditions(Lower(rel));
    assert |COMPONENT_RULES| == 6;
  }

  /** A path under `skills/code-agent/` that mentions no `/roo-code/` belongs
      to the code agent skill. */
  lemma CodeAgentPath(rel: string)
    requires StartsWith(Lower(rel), "skills/code-agent/")
    requires !Contains(Lower(rel), "/roo-code/")
    ensures ClassifyComponent(rel) == SkillCodeAgent
  {
    var lower := Lower(rel);
    assert lower[0] == lower[..18][0] == 's';
    StartsWithMismatch(lower, "roo-code/", 0);
  }

  /** Component classification ignores ASCII case. */
  lemma ClassifyIgnoresCase(rel: string)
    ensures ClassifyComponent(Lower(rel)) == ClassifyComponent(rel)
  {
    LowerIdempotent(rel);
  }

  /** System-critical detection ignores ASCII case. */
  lemma SystemCriticalIgnoresCase(rel: string)
    ensures IsSystemCritical(Lower(rel)) == IsSystemCritical(rel)
  {
    LowerIdempotent(rel);
  }

  /** Prompt-content detection ignores ASCII case, in the path and in its name. */
  lemma PromptContentIgnoresCase(rel: string)
    ensures IsPromptContent(Lower(rel)) == IsPromptContent(rel)
  {
    LowerIdempotent(rel);
    BaseNameLower(rel);
    LowerIdempotent(BaseName(rel));
  }

  /** Test/snapshot detection does not ignore case: upper-casing the suffix
      turns a snapshot into a file that is not "not needed". */
  lemma NotNeededIsCaseSensitive()
    ensures IsNotNeeded("a.snap") && !IsNotNeeded("A.SNAP")
  {
    assert "a.snap"[1..] == ".snap";
    MissingCharNotContained("A.SNAP", "/__tests__/", '/');
    EndsWithMismatch("A.SNAP", ".spec.ts");
    EndsWithMismatch("A.SNAP", ".snap");
  }
}
