/** The installer test suite's scenarios, restated against the model. Each
    starts, as the suite does, from an empty rules directory and a config
    whose `blocks` list is empty. */
module Scenarios {
  import opened Common
  import opened RuleFiles
  import opened Blocks
  import opened Store
  import opened Config
  import opened Installer
  import opened InstallerProps

  /** The suite's config: `blocks: []` plus keys the installer passes through. */
  const TestConfig: ConfigFile :=
    ConfigObject(RawConfig(Some([]), map["version" := "0.1", "mode" := "copy"]))

  const RuleA: BlockRule := BlockRule("rule-a", "conventions", "error", "Rule A.", [])
  const RuleB: BlockRule := BlockRule("rule-b", "security", "warning", "Rule B.", [])

  /** The project-local rule of 'appends to existing scope files'. */
  const ExistingRule: RuleEntry := RuleEntry("existing-rule", "error", "Existing rule.", None, map[])
  const NewRule: BlockRule := BlockRule("new-rule", "conventions", "warning", "New rule.", [])

  /** The two versions of the rule in 'replaces existing block rules on re-add'. */
  const OriginalRule: BlockRule := BlockRule("rule-a", "conventions", "error", "Original.", [])
  const UpdatedRule: BlockRule := BlockRule("rule-a", "conventions", "error", "Updated.", [])

  /** The rule of 'removes rules with matching sourceBlock'. */
  const BlockOnlyRule: BlockRule := BlockRule("rule-a", "conventions", "error", "Block rule.", [])

  /** The rules directory of 'appends to existing scope files': a conventions
      file holding the project-local rule. */
  const LocalRulesDir: RulesDir :=
    Dir([Entry("conventions.yml", Parsed(Some("conventions"), Some([ExistingRule]), map[]))])

  /** The two blocks of 'preserves rules from other blocks'. */
  const FromA: BlockRule := BlockRule("rule-a", "conventions", "error", "From A.", [])
  const FromB: BlockRule := BlockRule("rule-b", "conventions", "error", "From B.", [])

  /** `makeBlock` with the given id and rules. */
  function MakeBlock(id: string, rules: seq<BlockRule>): Block {
    Block(id, "Test Block", "A test block", "1.0.0", rules)
  }

  /** The rules of `name` after an operation. */
  function RulesAfter(o: Outcome, name: string): seq<RuleEntry> {
    RulesIn(Lookup(EntriesOf(o.rules), name))
  }

  /** How often `id` occurs in the config's `blocks` list. */
  function Occurrences(c: ConfigFile, id: string): nat {
    if c.ConfigObject? then multiset(BlockIds(c.doc))[id] else 0
  }

  /** The two scope files of the suite. */
  lemma SuiteFileNames()
    ensures ScopeFileName("conventions") == "conventions.yml"
    ensures ScopeFileName("security") == "security.yml"
  {
  }

  /** Grouping a two-rule block. */
  lemma InScopeOfPair(r1: BlockRule, r2: BlockRule, scope: string)
    ensures InScope([r1, r2], scope)
            == (if r1.scope == scope then [r1] else []) + (if r2.scope == scope then [r2] else [])
  {
    var x1 := if r1.scope == scope then [r1] else [];
    var x2 := if r2.scope == scope then [r2] else [];
    assert [r1, r2][..1] == [r1];
    assert InScope([r1], scope) == InScope([], scope) + x1;
    assert InScope([r1, r2], scope) == InScope([r1], scope) + x2;
  }

  /** The scopes of a one-rule block. */
  lemma ScopesOfSingle(r: BlockRule)
    ensures ScopesOf([r]) == {r.scope}
  {
    assert r in [r];
  }

  /** Grouping a one-rule block. */
  lemma InScopeOfSingle(r: BlockRule)
    ensures InScope([r], r.scope) == [r]
  {
    assert InScope([r], r.scope) == InScope([], r.scope) + [r];
  }

  /** What install leaves in the file of a scope the block names, read off
      the contract of `InstallBlock`. */
  lemma InstalledScope(dir: RulesDir, config: ConfigFile, block: Block, r: BlockRule)
    requires r in block.rules
    ensures var name := ScopeFileName(r.scope);
            Lookup(InstallBlock(dir, config, block).rules.entries, name)
            == Some(WriteRuleFile(MergedDoc(Lookup(EntriesOf(dir), name), block.id, r.scope, InScope(block.rules, r.scope))))
  {
    ScopeOfScopeFile(r.scope);
  }

  /** The rules install leaves in the file of a scope the block names. */
  lemma InstalledRules(dir: RulesDir, config: ConfigFile, block: Block, r: BlockRule)
    requires r in block.rules
    ensures var name := ScopeFileName(r.scope);
            RulesIn(Lookup(InstallBlock(dir, config, block).rules.entries, name))
            == MergedDoc(Lookup(EntriesOf(dir), name), block.id, r.scope, InScope(block.rules, r.scope)).rules
  {
    InstalledScope(dir, config, block, r);
  }

  /** The same, for a scope file named by its literal file name. */
  lemma InstalledNamed(dir: RulesDir, config: ConfigFile, block: Block, r: BlockRule, name: string)
    requires r in block.rules && name == ScopeFileName(r.scope)
    ensures RulesAfter(InstallBlock(dir, config, block), name)
            == MergedDoc(Lookup(EntriesOf(dir), name), block.id, r.scope, InScope(block.rules, r.scope)).rules
  {
    InstalledRules(dir, config, block, r);
  }

  /** 'creates scope files and adds rules'. */
  lemma CreatesScopeFiles()
    ensures var o := InstallBlock(Dir([]), TestConfig, MakeBlock("test-block", [RuleA, RuleB]));
            && o.result == Ok(2)
            && RulesAfter(o, "conventions.yml") == [RuleEntry("rule-a", "error", "Rule A.", Some("test-block"), map[])]
            && RulesAfter(o, "security.yml") == [RuleEntry("rule-b", "warning", "Rule B.", Some("test-block"), map[])]
  {
    var b := MakeBlock("test-block", [RuleA, RuleB]);
    InScopeOfPair(RuleA, RuleB, "conventions");
    InScopeOfPair(RuleA, RuleB, "security");
    InstalledRules(Dir([]), TestConfig, b, RuleA);
    InstalledRules(Dir([]), TestConfig, b, RuleB);
    SuiteFileNames();
  }

  /** 'appends to existing scope files without duplicating': the
      project-local rule stays first and the new rule follows it. */
  lemma AppendsAfterProjectRule(config: ConfigFile)
    ensures var rules := RulesAfter(InstallBlock(LocalRulesDir, config, MakeBlock("test-block", [NewRule])), "conventions.yml");
            |rules| == 2 && rules[0].id == "existing-rule" && rules[1].id == "new-rule"
  {
    SuiteFileNames();
    SingleRuleAfterOther(LocalRulesDir, config, MakeBlock("test-block", [NewRule]), NewRule, "conventions.yml", ExistingRule);
  }

  /** The rules install writes into a scope file that held nothing. */
  lemma FreshScopeRules(block: Block, r: BlockRule, name: string)
    requires r in block.rules && name == ScopeFileName(r.scope)
    ensures RulesIn(InstalledFile([], block, name)) == StampAll(InScope(block.rules, r.scope), block.id)
  {
    ScopeOfScopeFile(r.scope);
  }

  /** Stamping one rule. */
  lemma StampSingle(r: BlockRule, blockId: string)
    ensures StampAll([r], blockId) == [Stamp(r, blockId)]
  {
    assert StampAll([r], blockId)[0] == Stamp(r, blockId);
  }

  /** Re-installing a one-rule block whose rule changed, into an empty
      directory, leaves only the new version's entry in the scope file. */
  lemma ReAddReplaces(config: ConfigFile, original: Block, updated: Block, r1: BlockRule, r2: BlockRule, name: string)
    requires original.rules == [r1] && updated.rules == [r2] && original.id == updated.id
    requires r1.scope == r2.scope && name == ScopeFileName(r2.scope)
    ensures var first := InstallBlock(Dir([]), config, original);
            RulesAfter(InstallBlock(first.rules, first.config, updated), name) == [Stamp(r2, updated.id)]
  {
    ScopeOfScopeFile(r2.scope);
    ScopesOfSingle(r2);
    InstallOverInstall(Dir([]), config, original, updated, name);
    FreshScopeRules(updated, r2, name);
    InScopeOfSingle(r2);
    StampSingle(r2, updated.id);
  }

  /** 'replaces existing block rules on re-add'. */
  lemma ReplacesOnReAdd(config: ConfigFile)
    ensures var first := InstallBlock(Dir([]), config, MakeBlock("test-block", [OriginalRule]));
            var rules := RulesAfter(InstallBlock(first.rules, first.config, MakeBlock("test-block", [UpdatedRule])), "conventions.yml");
            |rules| == 1 && rules[0].content == "Updated."
  {
    SuiteFileNames();
    ReAddReplaces(config, MakeBlock("test-block", [OriginalRule]), MakeBlock("test-block", [UpdatedRule]),
                  OriginalRule, UpdatedRule, "conventions.yml");
  }

  /** 'adds block ID to config.yml blocks array' and 'does not duplicate block
      ID in config on re-add'. */
  lemma ConfigListsBlockOnce()
    ensures var b := MakeBlock("test-block", [RuleA, RuleB]);
            var once := InstallBlock(Dir([]), TestConfig, b);
            var twice := InstallBlock(once.rules, once.config, b);
            Occurrences(once.config, "test-block") == 1 && Occurrences(twice.config, "test-block") == 1
  {
    InstallIdempotent(Dir([]), TestConfig, MakeBlock("test-block", [RuleA, RuleB]));
  }

  /** A one-rule block installed where its scope file does not exist yet
      writes a file holding just that rule, stamped. */
  lemma SingleRuleFresh(dir: RulesDir, config: ConfigFile, block: Block, r: BlockRule, name: string)
    requires block.rules == [r] && name == ScopeFileName(r.scope)
    requires Lookup(EntriesOf(dir), name) == None
    ensures Lookup(InstallBlock(dir, config, block).rules.entries, name)
            == Some(WriteRuleFile(RuleDoc(r.scope, [Stamp(r, block.id)])))
  {
    InstalledScope(dir, config, block, r);
    InScopeOfSingle(r);
    StampSingle(r, block.id);
  }

  /** What uninstall leaves in one rule file, given the entries it held. */
  lemma UninstalledFile(dir: RulesDir, config: ConfigFile, blockId: string, name: string, rules: seq<RuleEntry>)
    requires dir.Dir? && IsRuleFileName(name) && RulesIn(Lookup(dir.entries, name)) == rules
    ensures RulesAfter(UninstallBlock(dir, config, blockId), name) == WithoutBlock(rules, blockId)
  {
    UninstallFiltersEachFile(dir, config, blockId, name);
  }

  /** Uninstall rewrites a file that holds one entry of the block as the
      same scope with an empty `rules` list. */
  lemma UninstallSingle(dir: RulesDir, config: ConfigFile, r: BlockRule, blockId: string, name: string)
    requires dir.Dir? && name == ScopeFileName(r.scope)
    requires Lookup(dir.entries, name) == Some(WriteRuleFile(RuleDoc(r.scope, [Stamp(r, blockId)])))
    ensures Lookup(EntriesOf(UninstallBlock(dir, config, blockId).rules), name)
            == Some(WriteRuleFile(RuleDoc(r.scope, [])))
  {
    ScopeOfScopeFile(r.scope);
    assert OwnedBy([Stamp(r, blockId)], blockId) == [Stamp(r, blockId)];
    assert WithoutBlock([Stamp(r, blockId)], blockId) == [];
    SweepRewrites(dir.entries, blockId, name);
  }

  /** Uninstall right after installing a one-rule block into an empty
      directory returns 1 and leaves the scope file in place, holding the
      scope and an empty `rules` list. */
  lemma InstallUninstallSingle(config: ConfigFile, b: Block, r: BlockRule, name: string)
    requires config.ConfigObject? && b.rules == [r] && name == ScopeFileName(r.scope)
    ensures var once := InstallBlock(Dir([]), config, b);
            var back := UninstallBlock(once.rules, once.config, b.id);
            back.result == Ok(1) && Lookup(EntriesOf(back.rules), name) == Some(WriteRuleFile(RuleDoc(r.scope, [])))
  {
    var once := InstallBlock(Dir([]), config, b);
    assert UninstallBlock(once.rules, once.config, b.id).result == Ok(1) by {
      FreshRoundTrip(Dir([]), config, b);
    }
    assert Lookup(once.rules.entries, name) == Some(WriteRuleFile(RuleDoc(r.scope, [Stamp(r, b.id)]))) by {
      SingleRuleFresh(Dir([]), config, b, r, name);
    }
    UninstallSingle(once.rules, once.config, r, b.id, name);
  }

  /** 'removes rules with matching sourceBlock': uninstall returns 1, and
      `conventions.yml` still parses, with an empty `rules` list. */
  lemma UninstallRemovesBlockRules()
    ensures var once := InstallBlock(Dir([]), TestConfig, MakeBlock("test-block", [BlockOnlyRule]));
            var back := UninstallBlock(once.rules, once.config, "test-block");
            back.result == Ok(1)
            && Lookup(EntriesOf(back.rules), "conventions.yml") == Some(WriteRuleFile(RuleDoc("conventions", [])))
  {
    SuiteFileNames();
    InstallUninstallSingle(TestConfig, MakeBlock("test-block", [BlockOnlyRule]), BlockOnlyRule, "conventions.yml");
  }

  /** Merging into a file the installer wrote: the old entries minus the
      block's, then the block's stamped rules. */
  lemma MergeIntoWritten(d: RuleDoc, blockId: string, scope: string, rules: seq<BlockRule>)
    ensures MergedDoc(Some(WriteRuleFile(d)), blockId, scope, rules).rules
            == WithoutBlock(d.rules, blockId) + StampAll(rules, blockId)
  {
  }

  /** A one-rule block installed over a scope file the installer wrote. */
  lemma SingleRuleOver(dir: RulesDir, config: ConfigFile, block: Block, r: BlockRule, name: string, d: RuleDoc)
    requires block.rules == [r] && name == ScopeFileName(r.scope)
    requires Lookup(EntriesOf(dir), name) == Some(WriteRuleFile(d))
    ensures RulesAfter(InstallBlock(dir, config, block), name) == WithoutBlock(d.rules, block.id) + [Stamp(r, block.id)]
  {
    InstalledNamed(dir, config, block, r, name);
    InScopeOfSingle(r);
    MergeIntoWritten(d, block.id, r.scope, [r]);
    StampSingle(r, block.id);
  }

  /** The filter keeps a lone entry of another block. */
  lemma KeepSingle(e: RuleEntry, blockId: string)
    requires !FromBlock(e, blockId)
    ensures WithoutBlock([e], blockId) == [e]
  {
    assert [e][1..] == [];
  }

  /** A one-rule block installed over a file holding one entry of another
      block lands after that entry. */
  lemma SingleRuleAfterOther(dir: RulesDir, config: ConfigFile, block: Block, r: BlockRule, name: string, e: RuleEntry)
    requires block.rules == [r] && name == ScopeFileName(r.scope) && !FromBlock(e, block.id)
    requires Lookup(EntriesOf(dir), name) == Some(WriteRuleFile(RuleDoc(r.scope, [e])))
    ensures RulesAfter(InstallBlock(dir, config, block), name) == [e, Stamp(r, block.id)]
  {
    SingleRuleOver(dir, config, block, r, name, RuleDoc(r.scope, [e]));
    KeepSingle(e, block.id);
  }

  /** Two one-rule blocks with different ids installed one after the other
      into an empty directory share their scope file, first block first. */
  lemma TwoBlocksInstalled(config: ConfigFile, a: Block, b: Block, ra: BlockRule, rb: BlockRule, name: string)
    requires a.rules == [ra] && b.rules == [rb] && a.id != b.id
    requires ra.scope == rb.scope && name == ScopeFileName(ra.scope)
    ensures var s1 := InstallBlock(Dir([]), config, a);
            var s2 := InstallBlock(s1.rules, s1.config, b);
            RulesAfter(s2, name) == [Stamp(ra, a.id), Stamp(rb, b.id)]
  {
    var s1 := InstallBlock(Dir([]), config, a);
    SingleRuleFresh(Dir([]), config, a, ra, name);
    SingleRuleAfterOther(s1.rules, s1.config, b, rb, name, Stamp(ra, a.id));
  }

  /** Uninstalling the first of two blocks from a file holding one entry of
      each leaves the second's. */
  lemma UninstallFirstEntry(dir: RulesDir, config: ConfigFile, e1: RuleEntry, e2: RuleEntry, blockId: string, name: string)
    requires dir.Dir? && IsRuleFileName(name) && RulesIn(Lookup(dir.entries, name)) == [e1, e2]
    requires FromBlock(e1, blockId) && !FromBlock(e2, blockId)
    ensures RulesAfter(UninstallBlock(dir, config, blockId), name) == [e2]
  {
    UninstalledFile(dir, config, blockId, name, [e1, e2]);
    assert WithoutBlock([e1, e2], blockId) == [e2];
  }

  /** Uninstalling the first of two one-rule blocks that share a scope file
      leaves the second block's entry there. */
  lemma UninstallFirstOfTwo(config: ConfigFile, a: Block, b: Block, ra: BlockRule, rb: BlockRule, name: string)
    requires a.rules == [ra] && b.rules == [rb] && a.id != b.id
    requires ra.scope == rb.scope && name == ScopeFileName(ra.scope)
    ensures var s1 := InstallBlock(Dir([]), config, a);
            var s2 := InstallBlock(s1.rules, s1.config, b);
            RulesAfter(UninstallBlock(s2.rules, s2.config, a.id), name) == [Stamp(rb, b.id)]
  {
    var s1 := InstallBlock(Dir([]), config, a);
    var s2 := InstallBlock(s1.rules, s1.config, b);
    TwoBlocksInstalled(config, a, b, ra, rb, name);
    ScopeOfScopeFile(ra.scope);
    UninstallFirstEntry(s2.rules, s2.config, Stamp(ra, a.id), Stamp(rb, b.id), a.id, name);
  }

  /** 'preserves rules from other blocks'. */
  lemma UninstallKeepsOtherBlock(config: ConfigFile)
    ensures var s1 := InstallBlock(Dir([]), config, MakeBlock("block-a", [FromA]));
            var s2 := InstallBlock(s1.rules, s1.config, MakeBlock("block-b", [FromB]));
            var rules := RulesAfter(UninstallBlock(s2.rules, s2.config, "block-a"), "conventions.yml");
            |rules| == 1 && rules[0].id == "rule-b"
  {
    var a := MakeBlock("block-a", [FromA]);
    var b := MakeBlock("block-b", [FromB]);
    assert a.id != b.id by {
      assert a.id[6] != b.id[6];
    }
    SuiteFileNames();
    UninstallFirstOfTwo(config, a, b, FromA, FromB, "conventions.yml");
  }

  /** 'removes block ID from config.yml': the config is still an object whose
      `blocks` is a list, and the list no longer holds `test-block`. */
  lemma UninstallUnlistsBlock()
    ensures var b := MakeBlock("test-block", [RuleA, RuleB]);
            var once := InstallBlock(Dir([]), TestConfig, b);
            var c := UninstallBlock(once.rules, once.config, "test-block").config;
            c.ConfigObject? && c.doc.blocks.Some? && "test-block" !in c.doc.blocks.value
  {
    FreshRoundTrip(Dir([]), TestConfig, MakeBlock("test-block", [RuleA, RuleB]));
  }

  /** 'returns 0 when no rules match'. */
  lemma UninstallUnknownBlock()
    ensures UninstallBlock(Dir([]), TestConfig, "nonexistent").result == Ok(0)
  {
  }

  // ---------------------------------------------------------------------------
  // A block re-installed without one of its scopes

  /** Grouping a two-rule block whose rules have different scopes. */
  lemma InScopeOfSecond(ra: BlockRule, rb: BlockRule)
    requires ra.scope != rb.scope
    ensures InScope([ra, rb], rb.scope) == [rb]
  {
    InScopeOfPair(ra, rb, rb.scope);
  }

  /** Re-installing a block over its own first install into an empty
      directory leaves a scope the new version no longer names as the first
      install wrote it. */
  lemma DroppedScopeKept(config: ConfigFile, earlier: Block, block: Block, r: BlockRule, name: string)
    requires earlier.id == block.id && r in earlier.rules
    requires name == ScopeFileName(r.scope) && r.scope !in ScopesOf(block.rules)
    ensures var first := InstallBlock(Dir([]), config, earlier);
            RulesAfter(InstallBlock(first.rules, first.config, block), name)
            == StampAll(InScope(earlier.rules, r.scope), earlier.id)
  {
    ScopeOfScopeFile(r.scope);
    InstallOverInstall(Dir([]), config, earlier, block, name);
    FreshScopeRules(earlier, r, name);
  }

  /** A two-rule block re-installed without its second rule's scope leaves
      that scope's file holding the second rule. */
  lemma SecondScopeKept(config: ConfigFile, full: Block, reduced: Block, ra: BlockRule, rb: BlockRule, name: string)
    requires full.rules == [ra, rb] && reduced.rules == [ra] && full.id == reduced.id
    requires ra.scope != rb.scope && name == ScopeFileName(rb.scope)
    ensures var s1 := InstallBlock(Dir([]), config, full);
            RulesAfter(InstallBlock(s1.rules, s1.config, reduced), name) == [Stamp(rb, full.id)]
  {
    ScopesOfSingle(ra);
    DroppedScopeKept(config, full, reduced, rb, name);
    InScopeOfSecond(ra, rb);
    StampSingle(rb, full.id);
  }

  /** A first install into an empty directory holds one entry of the block
      in the file of a scope it names with one rule. */
  lemma FirstInstallCount(config: ConfigFile, block: Block, r: BlockRule)
    requires r in block.rules && InScope(block.rules, r.scope) == [r]
    ensures CountAt(InstallBlock(Dir([]), config, block).rules.entries, ScopeFileName(r.scope), block.id) == 1
  {
    InstalledScope(Dir([]), config, block, r);
    ScopeOfScopeFile(r.scope);
    var d := MergedDoc(None, block.id, r.scope, [r]);
    StampSingle(r, block.id);
    assert FileCount(Entry(ScopeFileName(r.scope), WriteRuleFile(d)), block.id) == 1;
  }

  /** Re-installing with only rule-a overwrites the conventions file, which
      held one entry of the block. */
  lemma ReducedBlockStale(config: ConfigFile, full: Block, reduced: Block, ra: BlockRule, rb: BlockRule)
    requires full.rules == [ra, rb] && reduced.rules == [ra] && ra.scope != rb.scope
    ensures Stale(InstallBlock(Dir([]), config, full).rules.entries, full.id, GroupByScope(reduced.rules)) == 1
  {
    assert GroupByScope(reduced.rules) == [ScopeGroup(ra.scope, [ra])];
    InScopeOfPair(ra, rb, ra.scope);
    FirstInstallCount(config, full, ra);
  }

  /** Uninstall right after an install into a listed directory, counted from
      the block's entries there before and the stale ones install overwrote. */
  lemma UninstallAfterInstallCount(dir: RulesDir, config: ConfigFile, block: Block, before: nat, stale: nat)
    requires dir.Dir? && config.ConfigObject?
    requires Total(dir.entries, block.id) == before && Stale(dir.entries, block.id, GroupByScope(block.rules)) == stale
    ensures var once := InstallBlock(dir, config, block);
            var back := UninstallBlock(once.rules, once.config, block.id);
            back.result.Ok? && back.result.value + stale == |block.rules| + before
  {
    UninstallAfterInstall(dir, config, block);
  }

  /** Uninstalling after the two installs removes both of the first
      install's entries. */
  lemma StaleUninstallCount(config: ConfigFile, full: Block, reduced: Block, ra: BlockRule, rb: BlockRule)
    requires config.ConfigObject?
    requires full.rules == [ra, rb] && reduced.rules == [ra] && full.id == reduced.id && ra.scope != rb.scope
    ensures var s1 := InstallBlock(Dir([]), config, full);
            var s2 := InstallBlock(s1.rules, s1.config, reduced);
            UninstallBlock(s2.rules, s2.config, full.id).result == Ok(2)
  {
    var s1 := InstallBlock(Dir([]), config, full);
    assert Total(s1.rules.entries, full.id) == 2 by {
      FreshRoundTrip(Dir([]), config, full);
    }
    assert Stale(s1.rules.entries, full.id, GroupByScope(reduced.rules)) == 1 by {
      ReducedBlockStale(config, full, reduced, ra, rb);
    }
    UninstallAfterInstallCount(s1.rules, s1.config, reduced, 2, 1);
  }

  /** A re-installed block that dropped a scope leaves its old entries in that
      scope's file, so the next uninstall removes more than the block's
      current rules: it returns 2 although the re-installed block has one
      rule. The round trip is exact only from a clean directory. */
  lemma DroppedScopeLeavesStaleRules(config: ConfigFile)
    requires config.ConfigObject?
    ensures var reduced := MakeBlock("test-block", [RuleA]);
            var s1 := InstallBlock(Dir([]), config, MakeBlock("test-block", [RuleA, RuleB]));
            var s2 := InstallBlock(s1.rules, s1.config, reduced);
            && RulesAfter(s2, "security.yml") == [Stamp(RuleB, "test-block")]
            && UninstallBlock(s2.rules, s2.config, "test-block").result == Ok(2)
  {
    var full := MakeBlock("test-block", [RuleA, RuleB]);
    var reduced := MakeBlock("test-block", [RuleA]);
    assert RuleA.scope != RuleB.scope by {
      assert RuleA.scope[0] != RuleB.scope[0];
    }
    SuiteFileNames();
    SecondScopeKept(config, full, reduced, RuleA, RuleB, "security.yml");
    StaleUninstallCount(config, full, reduced, RuleA, RuleB);
  }
}
