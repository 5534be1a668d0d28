/** Properties relating several install and uninstall calls: idempotence,
    isolation between blocks, and the uninstall-after-install count. */
module InstallerProps {
  import opened Common
  import opened RuleFiles
  import opened Blocks
  import opened Store
  import opened Config
  import opened Installer

  /** The rules a file holds as the installer reads it ([] when it reads as null). */
  function RulesIn(f: Option<StoredFile>): seq<RuleEntry> {
    match ReadRuleFile(f)
    case Some(d) => d.rules
    case None => []
  }

  // ---------------------------------------------------------------------------
  // Idempotence of install

  /** Re-merging a scope file replaces the block's previous entries there:
      the result depends only on the file before the first merge and the
      latest rules, whatever rules the first merge wrote. */
  lemma MergedDocReplaces(existing: Option<StoredFile>, blockId: string, scope: string,
                          previous: seq<BlockRule>, rules: seq<BlockRule>)
    ensures var d := MergedDoc(existing, blockId, scope, previous);
            MergedDoc(Some(WriteRuleFile(d)), blockId, scope, rules) == MergedDoc(existing, blockId, scope, rules)
  {
    var d := MergedDoc(existing, blockId, scope, previous);
    var d1 := MergedDoc(Some(WriteRuleFile(d)), blockId, scope, rules);
    var d2 := MergedDoc(existing, blockId, scope, rules);
    assert WithoutBlock(d1.rules, blockId) == WithoutBlock(d2.rules, blockId);
    assert d1.rules == d2.rules;
  }

  /** Installing a block over an earlier install of the same block id: the
      files of the scopes it names are as if the earlier install never
      happened, and every other file is as the earlier install left it,
      stale entries of the block included. */
  lemma InstallOverInstall(dir: RulesDir, config: ConfigFile, earlier: Block, block: Block, name: string)
    requires earlier.id == block.id
    ensures var first := InstallBlock(dir, config, earlier);
            var second := InstallBlock(first.rules, first.config, block);
            Lookup(second.rules.entries, name)
            == if ScopeOfFile(name).Some? && ScopeOfFile(name).value in ScopesOf(block.rules)
               then InstalledFile(EntriesOf(dir), block, name)
               else InstalledFile(EntriesOf(dir), earlier, name)
  {
    var es := EntriesOf(dir);
    var first := InstallBlock(dir, config, earlier);
    var es1 := first.rules.entries;
    assert Lookup(InstallBlock(first.rules, first.config, block).rules.entries, name) == InstalledFile(es1, block, name);
    assert Lookup(es1, name) == InstalledFile(es, earlier, name);
    if ScopeOfFile(name).Some? {
      var s := ScopeOfFile(name).value;
      if s in ScopesOf(block.rules) && s in ScopesOf(earlier.rules) {
        MergedDocReplaces(Lookup(es, name), block.id, s, InScope(earlier.rules, s), InScope(block.rules, s));
      }
    }
  }

  /** The scope loop changes nothing when every grouped scope file already
      holds what the loop would write there. */
  lemma {:induction false} InstallScopesNoop(es: seq<Entry>, blockId: string, gs: seq<ScopeGroup>)
    requires DistinctScopes(gs)
    requires forall s :: s in Scopes(gs) ==>
               Lookup(es, ScopeFileName(s))
               == Some(WriteRuleFile(MergedDoc(Lookup(es, ScopeFileName(s)), blockId, s, GroupOf(gs, s))))
    ensures InstallScopes(es, blockId, gs).entries == es
    decreases |gs|
  {
    if |gs| > 0 {
      assert InstallScope(es, blockId, gs[0]) == es;
      forall s | s in Scopes(gs[1..])
        ensures GroupOf(gs[1..], s) == GroupOf(gs, s)
      {
      }
      InstallScopesNoop(es, blockId, gs[1..]);
    }
  }

  /** Installing a block twice leaves the same rule files, the same config and
      the same result as installing it once. */
  lemma InstallIdempotent(dir: RulesDir, config: ConfigFile, block: Block)
    ensures var once := InstallBlock(dir, config, block);
            InstallBlock(once.rules, once.config, block) == once
  {
    var once := InstallBlock(dir, config, block);
    var es0 := EntriesOf(dir);
    var es1 := once.rules.entries;
    var gs := GroupByScope(block.rules);
    forall s | s in Scopes(gs)
      ensures Lookup(es1, ScopeFileName(s))
              == Some(WriteRuleFile(MergedDoc(Lookup(es1, ScopeFileName(s)), block.id, s, GroupOf(gs, s))))
    {
      ScopeOfScopeFile(s);
      assert InstalledFile(es0, block, ScopeFileName(s))
             == Some(WriteRuleFile(MergedDoc(Lookup(es0, ScopeFileName(s)), block.id, s, InScope(block.rules, s))));
      MergedDocReplaces(Lookup(es0, ScopeFileName(s)), block.id, s, InScope(block.rules, s), InScope(block.rules, s));
    }
    InstallScopesNoop(es1, block.id, gs);
    if once.result.Ok? {
      AddBlockIdempotent(config, block.id);
    }
  }

  // ---------------------------------------------------------------------------
  // Isolation

  /** Merging a block into a file keeps the entries of every other tag. */
  lemma MergedKeepsOtherTags(existing: Option<StoredFile>, blockId: string, scope: string, rules: seq<BlockRule>, tag: Option<string>)
    requires tag != Some(blockId)
    ensures Tagged(RulesIn(Some(WriteRuleFile(MergedDoc(existing, blockId, scope, rules)))), tag)
            == Tagged(RulesIn(existing), tag)
  {
    var d := MergedDoc(existing, blockId, scope, rules);
    TaggedOfFiltered(d.rules, blockId, tag);
    TaggedOfFiltered(RulesIn(existing), blockId, tag);
    assert LoadScopeDoc(existing, scope).rules == RulesIn(existing);
  }

  /** Install never touches another block's entries or the project-local ones:
      in every file, the entries carrying any other tag are the same entries in
      the same order before and after. */
  lemma InstallIsolation(dir: RulesDir, config: ConfigFile, block: Block, name: string, tag: Option<string>)
    requires tag != Some(block.id)
    ensures Tagged(RulesIn(Lookup(InstallBlock(dir, config, block).rules.entries, name)), tag)
            == Tagged(RulesIn(Lookup(EntriesOf(dir), name)), tag)
  {
    var es := EntriesOf(dir);
    assert Lookup(InstallBlock(dir, config, block).rules.entries, name) == InstalledFile(es, block, name);
    match ScopeOfFile(name)
    case Some(s) =>
      if s in ScopesOf(block.rules) {
        MergedKeepsOtherTags(Lookup(es, name), block.id, s, InScope(block.rules, s), tag);
      }
    case None =>
  }

  /** After install, a file of a scope the block names holds exactly that
      scope's block rules, stamped, and they come after every other entry. */
  lemma InstallPlacesBlockRules(dir: RulesDir, config: ConfigFile, block: Block, scope: string)
    requires scope in ScopesOf(block.rules)
    ensures var rules := RulesIn(Lookup(InstallBlock(dir, config, block).rules.entries, ScopeFileName(scope)));
            && OwnedBy(rules, block.id) == StampAll(InScope(block.rules, scope), block.id)
            && rules == WithoutBlock(rules, block.id) + OwnedBy(rules, block.id)
            && WithoutBlock(rules, block.id) == WithoutBlock(RulesIn(Lookup(EntriesOf(dir), ScopeFileName(scope))), block.id)
  {
    var es := EntriesOf(dir);
    var name := ScopeFileName(scope);
    ScopeOfScopeFile(scope);
    var d := MergedDoc(Lookup(es, name), block.id, scope, InScope(block.rules, scope));
    assert LoadScopeDoc(Lookup(es, name), scope).rules == RulesIn(Lookup(es, name));
  }

  /** A file with none of the block's entries is left alone by the filter. */
  lemma {:induction false} NoOwnedIsClean(rules: seq<RuleEntry>, blockId: string)
    requires OwnedBy(rules, blockId) == []
    ensures WithoutBlock(rules, blockId) == rules
  {
    if |rules| > 0 {
      assert !FromBlock(rules[0], blockId);
      NoOwnedIsClean(rules[1..], blockId);
      assert rules == [rules[0]] + rules[1..];
    }
  }

  /** Uninstall's file loop, seen through one file name. */
  lemma {:induction false} SweepLookup(es: seq<Entry>, blockId: string, name: string)
    ensures var after := SweepEntries(es, blockId).entries;
            && (Lookup(after, name).Some? <==> Lookup(es, name).Some?)
            && (IsRuleFileName(name) ==> RulesIn(Lookup(after, name)) == WithoutBlock(RulesIn(Lookup(es, name)), blockId))
            && (!IsRuleFileName(name) ==> Lookup(after, name) == Lookup(es, name))
  {
    var after := SweepEntries(es, blockId).entries;
    if |es| > 0 {
      assert after[1..] == SweepEntries(es[1..], blockId).entries;
      if es[0].name == name {
        var e := es[0];
        if IsRuleFileName(e.name) && ReadRuleFile(Some(e.file)).Some? && FileCount(e, blockId) == 0 {
          NoOwnedIsClean(RulesIn(Some(e.file)), blockId);
        }
      } else {
        SweepLookup(es[1..], blockId, name);
      }
    }
  }

  /** Uninstall's file loop rewrites a rule file that holds some of the
      block's entries as its old document with those entries filtered out. */
  lemma {:induction false} SweepRewrites(es: seq<Entry>, blockId: string, name: string)
    requires IsRuleFileName(name) && ReadRuleFile(Lookup(es, name)).Some?
    requires OwnedBy(ReadRuleFile(Lookup(es, name)).value.rules, blockId) != []
    ensures var d := ReadRuleFile(Lookup(es, name)).value;
            Lookup(SweepEntries(es, blockId).entries, name)
            == Some(WriteRuleFile(RuleDoc(d.scope, WithoutBlock(d.rules, blockId))))
  {
    var after := SweepEntries(es, blockId).entries;
    assert after[1..] == SweepEntries(es[1..], blockId).entries;
    if es[0].name != name {
      SweepRewrites(es[1..], blockId, name);
    }
  }

  /** Uninstall keeps every file; a rule file afterwards holds its old entries
      minus the block's, in order, and any other file is untouched. */
  lemma UninstallFiltersEachFile(dir: RulesDir, config: ConfigFile, blockId: string, name: string)
    requires dir.Dir?
    ensures var after := UninstallBlock(dir, config, blockId).rules.entries;
            && (Lookup(after, name).Some? <==> Lookup(dir.entries, name).Some?)
            && (IsRuleFileName(name) ==>
                  RulesIn(Lookup(after, name)) == WithoutBlock(RulesIn(Lookup(dir.entries, name)), blockId))
            && (!IsRuleFileName(name) ==> Lookup(after, name) == Lookup(dir.entries, name))
  {
    SweepLookup(dir.entries, blockId, name);
  }

  /** Uninstall never touches another block's entries or the project-local
      ones: they stay the same entries in the same order in every file. */
  lemma UninstallIsolation(dir: RulesDir, config: ConfigFile, blockId: string, name: string, tag: Option<string>)
    requires dir.Dir?
    requires tag != Some(blockId)
    ensures Tagged(RulesIn(Lookup(UninstallBlock(dir, config, blockId).rules.entries, name)), tag)
            == Tagged(RulesIn(Lookup(dir.entries, name)), tag)
  {
    UninstallFiltersEachFile(dir, config, blockId, name);
    TaggedOfFiltered(RulesIn(Lookup(dir.entries, name)), blockId, tag);
  }

  // ---------------------------------------------------------------------------
  // Idempotence of uninstall

  /** A directory with no entry of the block has none in any file. */
  lemma {:induction false} TotalZeroEachFile(es: seq<Entry>, blockId: string, i: nat)
    requires Total(es, blockId) == 0 && i < |es|
    ensures FileCount(es[i], blockId) == 0
  {
    if i > 0 {
      TotalZeroEachFile(es[1..], blockId, i - 1);
    }
  }

  /** The file loop leaves a directory without any entry of the block as it is. */
  lemma SweepOfClean(es: seq<Entry>, blockId: string)
    requires Total(es, blockId) == 0
    ensures SweepEntries(es, blockId) == Swept(es, 0)
  {
    var sw := SweepEntries(es, blockId);
    forall i | 0 <= i < |es|
      ensures sw.entries[i] == es[i]
    {
      TotalZeroEachFile(es, blockId, i);
    }
  }

  /** No-op safety: uninstalling a block with no entry anywhere leaves every
      file as it was and returns 0 (or the config error). */
  lemma UninstallAbsentIsNoop(dir: RulesDir, config: ConfigFile, blockId: string)
    requires dir.Dir? ==> Total(dir.entries, blockId) == 0
    ensures UninstallBlock(dir, config, blockId).rules == dir
    ensures UninstallBlock(dir, config, blockId).result.Ok? ==> UninstallBlock(dir, config, blockId).result.value == 0
  {
    if dir.Dir? {
      SweepOfClean(dir.entries, blockId);
    }
  }

  /** Uninstalling twice is uninstalling once; the second call removes nothing. */
  lemma UninstallIdempotent(dir: RulesDir, config: ConfigFile, blockId: string)
    ensures var once := UninstallBlock(dir, config, blockId);
            var twice := UninstallBlock(once.rules, once.config, blockId);
            && twice.rules == once.rules
            && twice.config == once.config
            && twice.result == (if once.result.Ok? then Ok(0) else once.result)
  {
    var once := UninstallBlock(dir, config, blockId);
    if dir.Dir? {
      SweepOfClean(once.rules.entries, blockId);
      if once.result.Ok? {
        RemoveBlockIdempotent(config, blockId);
      }
    }
  }

  // ---------------------------------------------------------------------------
  // Uninstall after install

  /** How many of the block's entries the file `name` holds (0 when missing). */
  function CountAt(es: seq<Entry>, name: string, blockId: string): nat {
    match Lookup(es, name)
    case Some(f) => FileCount(Entry(name, f), blockId)
    case None => 0
  }

  /** The block's entries already present in the files the scope loop writes. */
  function Stale(es: seq<Entry>, blockId: string, gs: seq<ScopeGroup>): nat {
    if |gs| == 0 then 0
    else CountAt(es, ScopeFileName(gs[0].scope), blockId) + Stale(es, blockId, gs[1..])
  }

  /** Writing a file replaces its count in the directory total. */
  lemma {:induction false} TotalAfterWrite(es: seq<Entry>, name: string, f: StoredFile, blockId: string)
    ensures Total(WriteFile(es, name, f), blockId) + CountAt(es, name, blockId)
            == Total(es, blockId) + FileCount(Entry(name, f), blockId)
  {
    if |es| > 0 && es[0].name != name {
      var w := WriteFile(es, name, f);
      assert w[1..] == WriteFile(es[1..], name, f);
      TotalAfterWrite(es[1..], name, f, blockId);
    } else if |es| > 0 {
      var w := WriteFile(es, name, f);
      assert w[1..] == es[1..];
    }
  }

  /** `Stale` only looks at the grouped scope files. */
  lemma {:induction false} StaleFrame(es: seq<Entry>, es': seq<Entry>, blockId: string, gs: seq<ScopeGroup>)
    requires forall s :: s in Scopes(gs) ==> Lookup(es', ScopeFileName(s)) == Lookup(es, ScopeFileName(s))
    ensures Stale(es', blockId, gs) == Stale(es, blockId, gs)
  {
    if |gs| > 0 {
      StaleFrame(es, es', blockId, gs[1..]);
    }
  }

  /** The scope loop adds |rules| entries of the block to the directory total,
      after overwriting the files that held the stale ones. */
  lemma {:induction false} InstallScopesTotal(es: seq<Entry>, blockId: string, gs: seq<ScopeGroup>)
    requires DistinctScopes(gs)
    ensures Total(InstallScopes(es, blockId, gs).entries, blockId) + Stale(es, blockId, gs)
            == Total(es, blockId) + Size(gs)
    decreases |gs|
  {
    if |gs| > 0 {
      var g := gs[0];
      var name := ScopeFileName(g.scope);
      var d := MergedDoc(Lookup(es, name), blockId, g.scope, g.rules);
      var es1 := InstallScope(es, blockId, gs[0]);
      TotalAfterWrite(es, name, WriteRuleFile(d), blockId);
      ScopeOfScopeFile(g.scope);
      assert FileCount(Entry(name, WriteRuleFile(d)), blockId) == |g.rules|;
      forall s | s in Scopes(gs[1..])
        ensures Lookup(es1, ScopeFileName(s)) == Lookup(es, ScopeFileName(s))
      {
        ScopeOfScopeFile(s);
      }
      StaleFrame(es, es1, blockId, gs[1..]);
      InstallScopesTotal(es1, blockId, gs[1..]);
    }
  }

  /** Uninstall right after a successful install removes the block's rules
      plus whatever stale entries of the block install did not overwrite, and
      takes the id back out of `blocks`. */
  lemma UninstallAfterInstall(dir: RulesDir, config: ConfigFile, block: Block)
    requires InstallBlock(dir, config, block).result.Ok?
    ensures var once := InstallBlock(dir, config, block);
            var back := UninstallBlock(once.rules, once.config, block.id);
            && back.result.Ok?
            && back.result.value + Stale(EntriesOf(dir), block.id, GroupByScope(block.rules))
               == |block.rules| + Total(EntriesOf(dir), block.id)
            && back.config == RemoveBlockFromConfig(config, block.id).value
  {
    InstallScopesTotal(EntriesOf(dir), block.id, GroupByScope(block.rules));
    RemoveAfterAddBlock(config, block.id);
  }

  /** With no entry of the block on disk beforehand, that count is exactly
      |block.rules|. */
  lemma {:induction false} StaleOfClean(es: seq<Entry>, blockId: string, gs: seq<ScopeGroup>)
    requires Total(es, blockId) == 0
    ensures Stale(es, blockId, gs) == 0
  {
    if |gs| > 0 {
      var name := ScopeFileName(gs[0].scope);
      if Lookup(es, name).Some? {
        var i :| 0 <= i < |es| && es[i] == Entry(name, Lookup(es, name).value);
        TotalZeroEachFile(es, blockId, i);
      }
      StaleOfClean(es, blockId, gs[1..]);
    }
  }

  /** The round trip of a fresh install: uninstall removes exactly the rules
      install added, and the id is no longer in `blocks`. */
  lemma FreshRoundTrip(dir: RulesDir, config: ConfigFile, block: Block)
    requires InstallBlock(dir, config, block).result.Ok?
    requires Total(EntriesOf(dir), block.id) == 0
    ensures var once := InstallBlock(dir, config, block);
            var back := UninstallBlock(once.rules, once.config, block.id);
            && back.result == Ok(|block.rules|)
            && back.config.ConfigObject? && block.id !in back.config.doc.blocks.value
  {
    UninstallAfterInstall(dir, config, block);
    StaleOfClean(EntriesOf(dir), block.id, GroupByScope(block.rules));
  }
}
