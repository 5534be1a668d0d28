/** `installBlock` and `uninstallBlock` over an in-memory rules directory and
    config document. */
module Installer {
  import opened Common
  import opened RuleFiles
  import opened Blocks
  import opened Store
  import opened Config

  /** The file install reads and writes for a scope: `${scope}.yml`. */
  function ScopeFileName(scope: string): string {
    scope + ".yml"
  }

  /** The scope whose file `name` is, if it is one. */
  function ScopeOfFile(name: string): (s: Option<string>)
    ensures s.Some? <==> EndsWith(name, ".yml")
    ensures s.Some? ==> ScopeFileName(s.value) == name
  {
    if EndsWith(name, ".yml") then
      assert name == name[..|name| - 4] + ".yml";
      Some(name[..|name| - 4])
    else None
  }

  /** Scope file names are distinct for distinct scopes. */
  lemma ScopeOfScopeFile(scope: string)
    ensures ScopeOfFile(ScopeFileName(scope)) == Some(scope)
  {
    var name := ScopeFileName(scope);
    assert name[|name| - 4..] == ".yml";
    assert name[..|name| - 4] == scope;
  }

  /** The names uninstall treats as rule files. */
  predicate IsRuleFileName(name: string) {
    EndsWith(name, ".yml") || EndsWith(name, ".yaml")
  }

  /** The entry install writes for a block rule: id, severity and content are
      copied, `sourceBlock` is set, and nothing else (tags are dropped). */
  function Stamp(r: BlockRule, blockId: string): (e: RuleEntry)
    ensures e.id == r.id && e.severity == r.severity && e.content == r.content
    ensures FromBlock(e, blockId) && e.others == map[]
  {
    RuleEntry(r.id, r.severity, r.content, Some(blockId), map[])
  }

  /** The stamped entries of a scope's block rules: one per rule, in block
      order, each the rule's `Stamp`. */
  function StampAll(rules: seq<BlockRule>, blockId: string): (es: seq<RuleEntry>)
    ensures |es| == |rules|
    ensures forall i :: 0 <= i < |rules| ==> es[i] == Stamp(rules[i], blockId)
    ensures forall e :: e in es ==> FromBlock(e, blockId)
  {
    seq(|rules|, i requires 0 <= i < |rules| => Stamp(rules[i], blockId))
  }

  /** The document install starts from for `scope`: the file as read, or
      `{scope, rules: []}` when it is missing, unreadable or not an object. */
  function LoadScopeDoc(existing: Option<StoredFile>, scope: string): RuleDoc {
    ReadRuleFile(existing).GetOr(RuleDoc(scope, []))
  }

  /** The document install writes for one scope. Its entries that are not the
      block's are the old ones minus the block's, in order; its entries that
      are the block's are exactly the stamped block rules of that scope; and
      the block's entries come after all the others. A missing, unreadable or
      non-object file starts empty under `scope`; a parsed file keeps its own
      scope, "" when it has none. */
  function MergedDoc(existing: Option<StoredFile>, blockId: string, scope: string, rules: seq<BlockRule>): (d: RuleDoc)
    ensures WithoutBlock(d.rules, blockId) == WithoutBlock(LoadScopeDoc(existing, scope).rules, blockId)
    ensures OwnedBy(d.rules, blockId) == StampAll(rules, blockId)
    ensures d.rules == WithoutBlock(d.rules, blockId) + OwnedBy(d.rules, blockId)
    ensures !(existing.Some? && existing.value.Parsed?) ==> d == RuleDoc(scope, StampAll(rules, blockId))
    ensures existing.Some? && existing.value.Parsed? ==> d.scope == existing.value.scope.GetOr("")
  {
    var doc := LoadScopeDoc(existing, scope);
    ReplaceBlockEntries(doc.rules, blockId, StampAll(rules, blockId));
    RuleDoc(doc.scope, WithoutBlock(doc.rules, blockId) + StampAll(rules, blockId))
  }

  /** One iteration of install's scope loop: the scope's file now holds the
      merged document, and every other file reads as before. */
  function InstallScope(es: seq<Entry>, blockId: string, g: ScopeGroup): (es': seq<Entry>)
    ensures Lookup(es', ScopeFileName(g.scope))
            == Some(WriteRuleFile(MergedDoc(Lookup(es, ScopeFileName(g.scope)), blockId, g.scope, g.rules)))
    ensures forall n :: n != ScopeFileName(g.scope) ==> Lookup(es', n) == Lookup(es, n)
    ensures DistinctNames(es) ==> DistinctNames(es')
  {
    var name := ScopeFileName(g.scope);
    WriteFile(es, name, WriteRuleFile(MergedDoc(Lookup(es, name), blockId, g.scope, g.rules)))
  }

  /** The state of install's scope loop: the directory and `rulesAdded`. */
  datatype Installed = Installed(entries: seq<Entry>, added: nat)

  /** Reference for the scope loop, one file at a time: a file of a grouped
      scope holds the merged document, every other file is as it was. */
  function GroupedFile(es: seq<Entry>, blockId: string, gs: seq<ScopeGroup>, name: string): Option<StoredFile> {
    match ScopeOfFile(name)
    case Some(s) =>
      if s in Scopes(gs) then Some(WriteRuleFile(MergedDoc(Lookup(es, name), blockId, s, GroupOf(gs, s))))
      else Lookup(es, name)
    case None => Lookup(es, name)
  }

  /** Install's scope loop (lines 56-79). Because the scopes are distinct, the
      sequential loop agrees with the per-file reference on every name, and
      it counts one added rule per grouped rule. */
  function InstallScopes(es: seq<Entry>, blockId: string, gs: seq<ScopeGroup>): (r: Installed)
    requires DistinctScopes(gs)
    ensures forall name :: Lookup(r.entries, name) == GroupedFile(es, blockId, gs, name)
    ensures r.added == Size(gs)
    ensures DistinctNames(es) ==> DistinctNames(r.entries)
    decreases |gs|
  {
    if |gs| == 0 then Installed(es, 0)
    else
      var es1 := InstallScope(es, blockId, gs[0]);
      var rest := InstallScopes(es1, blockId, gs[1..]);
      InstallScopesStep(es, blockId, gs);
      Installed(rest.entries, |StampAll(gs[0].rules, blockId)| + rest.added)
  }

  /** The first group's file holds what the reference says once the first
      group is processed, since no later group has its scope. */
  lemma InstallScopesStepFirst(es: seq<Entry>, blockId: string, gs: seq<ScopeGroup>)
    requires |gs| > 0 && gs[0].scope !in Scopes(gs[1..])
    ensures var name := ScopeFileName(gs[0].scope);
            GroupedFile(InstallScope(es, blockId, gs[0]), blockId, gs[1..], name) == GroupedFile(es, blockId, gs, name)
  {
    ScopeOfScopeFile(gs[0].scope);
    assert gs[0].scope in Scopes(gs);
  }

  /** Every other file is left to the later groups. */
  lemma InstallScopesStepOther(es: seq<Entry>, blockId: string, gs: seq<ScopeGroup>, name: string)
    requires |gs| > 0
    requires ScopeOfFile(name) != Some(gs[0].scope)
    ensures GroupedFile(InstallScope(es, blockId, gs[0]), blockId, gs[1..], name) == GroupedFile(es, blockId, gs, name)
  {
    ScopeOfScopeFile(gs[0].scope);
    if ScopeOfFile(name).Some? {
      var s := ScopeOfFile(name).value;
      assert s in Scopes(gs) <==> s in Scopes(gs[1..]);
      assert GroupOf(gs, s) == GroupOf(gs[1..], s);
    }
  }

  /** Processing the first group, then the rest by the reference, is the
      reference for all groups, at one file name. */
  lemma InstallScopesStepAt(es: seq<Entry>, blockId: string, gs: seq<ScopeGroup>, name: string)
    requires DistinctScopes(gs) && |gs| > 0
    ensures GroupedFile(InstallScope(es, blockId, gs[0]), blockId, gs[1..], name) == GroupedFile(es, blockId, gs, name)
  {
    if ScopeOfFile(name) == Some(gs[0].scope) {
      assert gs[0].scope !in Scopes(gs[1..]);
      InstallScopesStepFirst(es, blockId, gs);
    } else {
      InstallScopesStepOther(es, blockId, gs, name);
    }
  }

  /** The same, at every file name. */
  lemma InstallScopesStep(es: seq<Entry>, blockId: string, gs: seq<ScopeGroup>)
    requires DistinctScopes(gs) && |gs| > 0
    ensures forall name :: GroupedFile(InstallScope(es, blockId, gs[0]), blockId, gs[1..], name)
                           == GroupedFile(es, blockId, gs, name)
  {
    forall name
      ensures GroupedFile(InstallScope(es, blockId, gs[0]), blockId, gs[1..], name) == GroupedFile(es, blockId, gs, name)
    {
      InstallScopesStepAt(es, blockId, gs, name);
    }
  }

  /** What `installBlock` leaves in the file `name`: a file of a scope the
      block names holds the merged document for that scope's block rules,
      every other file is untouched. Stated with the reference grouping. */
  function InstalledFile(es: seq<Entry>, block: Block, name: string): Option<StoredFile> {
    match ScopeOfFile(name)
    case Some(s) =>
      if s in ScopesOf(block.rules) then
        Some(WriteRuleFile(MergedDoc(Lookup(es, name), block.id, s, InScope(block.rules, s))))
      else Lookup(es, name)
    case None => Lookup(es, name)
  }

  /** The result of an install or uninstall: the rules directory, the config
      file, and the returned count or the error thrown. */
  datatype Outcome = Outcome(rules: RulesDir, config: ConfigFile, result: Result<nat, ConfigError>)

  /** `installBlock`. The rules directory exists afterwards and every file in it
      is as `InstalledFile` says. The call returns |block.rules| exactly when
      the config reads as an object, and then the config is `blocks` with the
      id set-inserted; otherwise it fails with the config untouched but the
      rule files already written. */
  function InstallBlock(dir: RulesDir, config: ConfigFile, block: Block): (o: Outcome)
    ensures o.rules.Dir?
    ensures forall name :: Lookup(o.rules.entries, name) == InstalledFile(EntriesOf(dir), block, name)
    ensures DistinctNames(EntriesOf(dir)) ==> DistinctNames(o.rules.entries)
    ensures o.result.Ok? <==> config.ConfigObject?
    ensures o.result.Ok? ==> o.result.value == |block.rules|
    ensures o.result.Ok? ==> o.config == AddBlockToConfig(config, block.id).value
    ensures o.result.Err? ==> o.config == config && o.result.error == ReadRawConfig(config).error
  {
    var es := EntriesOf(dir);
    var gs := GroupByScope(block.rules);
    var r := InstallScopes(es, block.id, gs);
    assert forall name :: GroupedFile(es, block.id, gs, name) == InstalledFile(es, block, name);
    match AddBlockToConfig(config, block.id)
    case Ok(c) => Outcome(Dir(r.entries), c, Ok(r.added))
    case Err(e) => Outcome(Dir(r.entries), config, Err(e))
  }

  /** Reference count: how many entries of the block a directory entry holds,
      as uninstall sees it (only readable `.yml`/`.yaml` files count). */
  function FileCount(e: Entry, blockId: string): nat {
    if IsRuleFileName(e.name) then
      match ReadRuleFile(Some(e.file))
      case Some(d) => |OwnedBy(d.rules, blockId)|
      case None => 0
    else 0
  }

  /** Reference count over the whole directory. */
  function Total(es: seq<Entry>, blockId: string): nat {
    if |es| == 0 then 0 else FileCount(es[0], blockId) + Total(es[1..], blockId)
  }

  /** The state of uninstall's file loop: the directory and `rulesRemoved`. */
  datatype Swept = Swept(entries: seq<Entry>, removed: nat)

  /** One iteration of uninstall's file loop. The name stays; the removed
      count is the file's number of the block's entries and none is left; a
      file holding none is left exactly as it was, and one holding some is
      rewritten as its old document with the block's entries filtered out. */
  function SweepEntry(e: Entry, blockId: string): (r: Swept)
    ensures |r.entries| == 1 && r.entries[0].name == e.name
    ensures r.removed == FileCount(e, blockId)
    ensures FileCount(r.entries[0], blockId) == 0
    ensures FileCount(e, blockId) == 0 ==> r.entries == [e]
    ensures FileCount(e, blockId) > 0 ==>
              var d := ReadRuleFile(Some(e.file)).value;
              r.entries[0].file == WriteRuleFile(RuleDoc(d.scope, WithoutBlock(d.rules, blockId)))
  {
    if !IsRuleFileName(e.name) then Swept([e], 0)
    else
      match ReadRuleFile(Some(e.file))
      case None => Swept([e], 0)
      case Some(d) =>
        var kept := WithoutBlock(d.rules, blockId);
        var removed := |d.rules| - |kept|;
        OwnedByOfFiltered(d.rules, blockId);
        if removed > 0 then Swept([Entry(e.name, WriteRuleFile(RuleDoc(d.scope, kept)))], removed)
        else Swept([e], 0)
  }

  /** Uninstall's file loop. It removes as many entries as the directory holds
      for the block and leaves none; it keeps every name in place; it rewrites
      a file only when it holds some of the block's entries, and then writes
      the old document with those entries filtered out. */
  function SweepEntries(es: seq<Entry>, blockId: string): (r: Swept)
    ensures r.removed == Total(es, blockId)
    ensures Total(r.entries, blockId) == 0
    ensures |r.entries| == |es|
    ensures forall i :: 0 <= i < |es| ==> r.entries[i].name == es[i].name
    ensures forall i :: 0 <= i < |es| && FileCount(es[i], blockId) == 0 ==> r.entries[i] == es[i]
    ensures forall i :: 0 <= i < |es| && FileCount(es[i], blockId) > 0 ==>
              var d := ReadRuleFile(Some(es[i].file)).value;
              r.entries[i].file == WriteRuleFile(RuleDoc(d.scope, WithoutBlock(d.rules, blockId)))
  {
    if |es| == 0 then Swept([], 0)
    else
      var head := SweepEntry(es[0], blockId);
      var tail := SweepEntries(es[1..], blockId);
      var r := Swept(head.entries + tail.entries, head.removed + tail.removed);
      assert r.entries[1..] == tail.entries;
      r
  }

  /** `uninstallBlock`. When the rules directory cannot be listed it returns 0
      and touches nothing, not even an invalid config. Otherwise it leaves no
      entry of the block in any rule file, and returns the number it removed
      exactly when the config reads as an object, with the id then removed
      from `blocks`; on a config error the rule files are already rewritten
      and the config is untouched. */
  function UninstallBlock(dir: RulesDir, config: ConfigFile, blockId: string): (o: Outcome)
    ensures dir.NoDir? ==> o == Outcome(dir, config, Ok(0))
    ensures dir.Dir? ==> o.rules.Dir? && Total(o.rules.entries, blockId) == 0
    ensures dir.Dir? ==> (o.result.Ok? <==> config.ConfigObject?)
    ensures dir.Dir? && o.result.Ok? ==> o.result.value == Total(dir.entries, blockId)
    ensures dir.Dir? && o.result.Ok? ==> o.config == RemoveBlockFromConfig(config, blockId).value
    ensures o.result.Err? ==> o.config == config && o.result.error == ReadRawConfig(config).error
  {
    match dir
    case NoDir => Outcome(dir, config, Ok(0))
    case Dir(es) =>
      var sw := SweepEntries(es, blockId);
      match RemoveBlockFromConfig(config, blockId)
      case Ok(c) => Outcome(Dir(sw.entries), c, Ok(sw.removed))
      case Err(e) => Outcome(Dir(sw.entries), config, Err(e))
  }
}
