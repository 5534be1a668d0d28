# Block installer, modelled in Dafny

The CLI keeps a project's rules in per-scope YAML files under `.dwf/rules/`.
It also keeps a project config, `.dwf/config.yml`, whose `blocks` list
names the installed blocks.

- `installBlock` groups a block's rules by scope. For each scope it loads
  `${scope}.yml`, treating a missing or malformed file as empty. It drops
  every entry whose `sourceBlock` is the block's id and appends the block's
  rules stamped with that id. Then it set-inserts the id into `blocks` and
  returns the number of rules it appended.
- `uninstallBlock` filters the block's entries out of every `.yml`/`.yaml`
  file. It rewrites only the files that changed, removes the id from
  `blocks`, and returns the number of entries it removed.

The model replaces the filesystem and YAML with data.

- The rules directory is `NoDir` (it cannot be listed) or a listing of named
  entries.
- Each entry's content is what reading and parsing it yields: `Unreadable`,
  `NotObject`, or `Parsed(scope?, rules?, other keys)`.
- The config is missing, unparseable, not an object, or an object with an
  optional `blocks` list and other keys.
- Both operations are pure functions returning the new directory, the new
  config, and either the count or the error thrown.

Modules:

| file | module | contents |
|---|---|---|
| `common.dfy` | `Common` | `Option`, `Result`, `EndsWith` |
| `rule_files.dfy` | `RuleFiles` | rule entries and documents; `readRuleFile`, `writeRuleFile`; the `sourceBlock` filter and its lemmas |
| `blocks.dfy` | `Blocks` | block definitions; the group-by-scope loop |
| `store.dfy` | `Store` | the rules directory: lookup and write |
| `config.dfy` | `Config` | `readRawConfig`, `addBlockToConfig`, `removeBlockFromConfig` |
| `installer.dfy` | `Installer` | `installBlock`, `uninstallBlock` and their loops |
| `installer_props.dfy` | `InstallerProps` | idempotence, isolation, uninstall-after-install |
| `scenarios.dfy` | `Scenarios` | the installer test suite's cases as lemmas |

Where a reference definition is written, it is an independent definition of
what an operation should compute, and a lemma or `ensures` connects the two:
- `InScope`, the per-scope filter of a block's rules, is the reference for
  the grouping loop.
- `GroupedFile` and `InstalledFile`, the expected content of each file, are
  the reference for install's sequential scope loop.
- `Total`, the per-file sum of the block's entries, is the reference for
  uninstall's running count.

## Behaviour worth knowing

In each of these cases the model does what the code does. In some of them
that is less than its comments and test names suggest.

- **Dropped scopes keep stale entries.** Install removes a block's earlier
  entries "to avoid duplicates on re-add" (`installer.ts:64`), but only in
  the files of the scopes its current rules name (`installer.ts:56-79`). A
  re-installed block that no longer names a scope leaves its old entries in
  that scope's file. `Scenarios.DroppedScopeLeavesStaleRules` shows it.
- **The uninstall-after-install count is exact only from a clean
  directory.** In general uninstall returns `|block.rules|` plus the stale
  entries of the block that install did not overwrite
  (`InstallerProps.UninstallAfterInstall`). The count is exactly
  `|block.rules|` when no entry of the block existed beforehand
  (`InstallerProps.FreshRoundTrip`) and the block's scopes name distinct
  files. Two scopes that `join` resolves to one file, such as `x` and
  `./x`, break it (see "Left out"). The test 'removes rules with matching
  sourceBlock' checks the clean case.
- **An uninstall that removes nothing still rewrites the config.**
  Uninstalling an unknown id leaves every rule file as it was
  (`InstallerProps.UninstallAbsentIsNoop`). It still rewrites the config
  (`installer.ts:152-154`), and a missing or non-list `blocks` comes back
  as `[]`.
- **Unlistable directory.** When the rules directory cannot be listed,
  uninstall returns 0 before reading the config. This holds even when the
  config is invalid (`installer.ts:90-95`).
- **Install is not transactional.** The rule files are written before the
  config is read (`installer.ts:78-82`). On a config error they stay
  written, and the error propagates.
- **What a rewrite drops.**
  - A rewritten rule file holds only `scope` and `rules`; any other
    top-level key is dropped (`installer.ts:26-29`).
  - A parsed file without a string `scope` is written back with scope `""`.
  - Stamped entries carry only `id`, `severity`, `content` and
    `sourceBlock`; the block rule's `tags` are dropped (`installer.ts:69-74`).

## Model

| member | source | states |
|---|---|---|
| RuleFiles.ReadRuleFile | packages/cli/src/blocks/installer.ts:20-33 | reading yields null exactly for a missing, unreadable or non-object file; a missing or non-string `scope` reads as "", a missing or non-list `rules` as [], present values are kept |
| RuleFiles.WriteRuleFile | packages/cli/src/blocks/installer.ts:35-37 | the written file holds no key besides `scope` and `rules`, and reading it back gives the document written |
| RuleFiles.WriteReadNormalises | packages/cli/src/blocks/installer.ts:20-37 | read-then-write is a fixed point of reading; a file holding exactly well-typed `scope` and `rules` is written back unchanged |
| RuleFiles.WithoutBlock | packages/cli/src/blocks/installer.ts:65 | the filter's survivors and the block's entries together account for every entry |
| RuleFiles.WithoutBlockMembers | packages/cli/src/blocks/installer.ts:65 | the filter keeps exactly the entries whose `sourceBlock` is not the block id |
| RuleFiles.WithoutBlockAppend | packages/cli/src/blocks/installer.ts:65 | the filter distributes over concatenation, so survivors keep their relative order |
| RuleFiles.WithoutBlockIdempotent | packages/cli/src/blocks/installer.ts:65 | filtering twice equals filtering once |
| RuleFiles.TaggedOfFiltered | packages/cli/src/blocks/installer.ts:106 | filtering out one block leaves the entries of every other tag, in order and with all fields |
| RuleFiles.ReplaceBlockEntries | packages/cli/src/blocks/installer.ts:64-76 | after filter-then-append, the non-block part is the filtered old list and the block part is exactly the appended list |
| Blocks.AddToGroups | packages/cli/src/blocks/installer.ts:45-51 | one grouping step keeps keys distinct, adds the rule's scope as a key, and appends the rule to its own scope's group only |
| Blocks.GroupByScope | packages/cli/src/blocks/installer.ts:44-52 | the grouping is a partition: keys are distinct and are exactly the scopes named; each key's group is that scope's rules in block order; sizes sum to the rule count |
| Blocks.GroupsAreScopes | packages/cli/src/blocks/installer.ts:44-52 | every group is non-empty and is exactly its scope's rules |
| Blocks.InScopeHolds | packages/cli/src/blocks/installer.ts:44-52 | every rule lands in its own scope's group |
| Store.WriteFile | packages/cli/src/blocks/installer.ts:78 | after a write the file reads as written; every other file reads as before; the name becomes listed; no name is listed twice |
| Config.ReadRawConfig | packages/cli/src/blocks/installer.ts:121-129 | succeeds exactly when the config parses to an object, and returns that object |
| Config.AddId | packages/cli/src/blocks/installer.ts:138-143 | set-insert: the id is present, the old list is a prefix, only the id can be new, and it does not gain a second occurrence |
| Config.RemoveId | packages/cli/src/blocks/installer.ts:152 | no occurrence of the id survives the removal |
| Config.RemoveIdCounts | packages/cli/src/blocks/installer.ts:150-152 | removal drops every occurrence of the id and keeps every other id as often as before |
| Config.RemoveIdAppend | packages/cli/src/blocks/installer.ts:152 | removal distributes over concatenation, so the survivors keep their order |
| Config.AddBlockToConfig | packages/cli/src/blocks/installer.ts:136-146 | fails with `readRawConfig`'s error exactly when the config is not an object; otherwise `blocks` becomes exactly the set-insert (`AddId`) of the id into the old list (non-list read as []): the old list is a prefix, the id is present once if it was absent, nothing else is added; other keys are kept |
| Config.RemoveBlockFromConfig | packages/cli/src/blocks/installer.ts:148-155 | fails with `readRawConfig`'s error exactly when the config is not an object; otherwise `blocks` becomes exactly the removal (`RemoveId`) of the id from the old list (non-list read as []): every occurrence goes, the rest keep their counts and order; other keys are kept |
| Config.AddBlockIdempotent | packages/cli/src/blocks/installer.ts:136-146 | adding an id twice gives the config of adding it once |
| Config.RemoveBlockIdempotent | packages/cli/src/blocks/installer.ts:148-155 | removing an id twice gives the config of removing it once |
| Config.RemoveAfterAddBlock | packages/cli/src/blocks/installer.ts:136-155 | add followed by remove gives the config of a plain remove |
| Installer.ScopeOfScopeFile | packages/cli/src/blocks/installer.ts:57 | in the model, distinct scopes have distinct file names: the scope is recovered from `${scope}.yml` (the source's `join` can merge names; see "Left out") |
| Installer.Stamp | packages/cli/src/blocks/installer.ts:69-74 | an installed entry copies the rule's id, severity and content, carries the block id as `sourceBlock`, and nothing else (tags dropped) |
| Installer.StampAll | packages/cli/src/blocks/installer.ts:68-76 | one entry per block rule, in block order, each that rule's stamp: its id, severity and content, `sourceBlock` set to the block, and nothing else |
| Installer.MergedDoc | packages/cli/src/blocks/installer.ts:58-76 | a scope's new document: the old entries minus the block's, then the stamped block rules after them; a missing or malformed file starts as `{scope, []}`; a parsed file keeps its own scope |
| Installer.InstallScope | packages/cli/src/blocks/installer.ts:57-78 | one scope iteration: the scope's file holds the merged document, every other file reads as before, no name is listed twice |
| Installer.InstallScopes | packages/cli/src/blocks/installer.ts:54-79 | the sequential scope loop leaves every file as the per-file reference says, and counts one added rule per grouped rule |
| Installer.InstallBlock | packages/cli/src/blocks/installer.ts:39-85 | the directory exists; each named scope's file holds its merged document and every other file is untouched; returns exactly the block's rule count when the config is an object, with the id set-inserted; otherwise fails with the config untouched |
| Installer.SweepEntry | packages/cli/src/blocks/installer.ts:101-112 | one file iteration keeps the name, removes exactly that file's entries of the block and leaves none; a file with none is left as it was, one with some is rewritten as its old `{scope, rules}` with the block's entries filtered out |
| Installer.SweepEntries | packages/cli/src/blocks/installer.ts:97-113 | the file loop removes the directory's total count of the block's entries and leaves none; files with none are left byte-identical; the others are rewritten as their old `{scope, rules}` with the block's entries filtered out |
| InstallerProps.SweepRewrites | packages/cli/src/blocks/installer.ts:101-112 | seen through one file name: a rule file holding some of the block's entries is rewritten as its old scope and its rules minus the block's |
| Installer.UninstallBlock | packages/cli/src/blocks/installer.ts:87-119 | an unlistable directory gives 0 with nothing touched; otherwise no entry of the block remains, and the result is the removed count with the id removed from `blocks` exactly when the config is an object |
| InstallerProps.MergedDocReplaces | packages/cli/src/blocks/installer.ts:58-76 | re-merging a block into a file depends only on the file before the first merge, not on what the first merge wrote |
| InstallerProps.InstallOverInstall | packages/cli/src/blocks/installer.ts:56-79 | install over an earlier install of the same id: named scopes are as if the earlier install never ran; every other file keeps what the earlier install wrote |
| InstallerProps.InstallIdempotent | packages/cli/src/blocks/installer.ts:39-85 | installing twice gives the same files, config and result as installing once |
| InstallerProps.InstallIsolation | packages/cli/src/blocks/installer.ts:56-79 | in every file, entries of any other block and project-local entries are the same, in the same order, before and after install |
| InstallerProps.InstallPlacesBlockRules | packages/cli/src/blocks/installer.ts:58-76 | a named scope's file holds exactly that scope's block rules, stamped, after all other entries, and its other entries are the old ones minus the block's |
| InstallerProps.UninstallFiltersEachFile | packages/cli/src/blocks/installer.ts:97-113 | uninstall keeps every file; a rule file holds its old entries minus the block's, in order; any other file is untouched |
| InstallerProps.UninstallIsolation | packages/cli/src/blocks/installer.ts:106 | in every file, entries of any other block and project-local entries are the same, in the same order, after uninstall |
| InstallerProps.UninstallAbsentIsNoop | packages/cli/src/blocks/installer.ts:87-119 | uninstalling a block with no entries leaves the rules directory as it was and returns 0 |
| InstallerProps.UninstallIdempotent | packages/cli/src/blocks/installer.ts:87-119 | a second uninstall leaves files and config as the first left them and returns 0 |
| InstallerProps.InstallScopesTotal | packages/cli/src/blocks/installer.ts:54-79 | the scope loop raises the directory's count of the block's entries by the rule count, minus the stale ones it overwrote |
| InstallerProps.UninstallAfterInstall | packages/cli/src/blocks/installer.ts:39-119 | uninstall after a successful install removes the block's rule count plus the stale entries install did not overwrite, and leaves the config of a plain remove |
| InstallerProps.FreshRoundTrip | packages/cli/src/blocks/installer.ts:39-119 | from a directory without the block's entries, uninstall after install returns exactly the rule count and the id is gone from `blocks` |
| Scenarios.CreatesScopeFiles | packages/cli/tests/blocks/installer.test.ts:47-67 | the two-rule block returns 2; `conventions.yml` holds only `rule-a` stamped `test-block`; `security.yml` holds only `rule-b` |
| Scenarios.AppendsAfterProjectRule | packages/cli/tests/blocks/installer.test.ts:69-90 | the project-local rule stays first and the new rule follows: two rules |
| Scenarios.ReplacesOnReAdd | packages/cli/tests/blocks/installer.test.ts:92-109 | re-adding with changed content leaves one entry with the latest content |
| Scenarios.ConfigListsBlockOnce | packages/cli/tests/blocks/installer.test.ts:111-132 | after one or two installs `blocks` holds `test-block` exactly once |
| Scenarios.UninstallRemovesBlockRules | packages/cli/tests/blocks/installer.test.ts:136-150 | uninstall after install returns 1 and leaves `conventions.yml` in place, parsing to scope `conventions` with an empty `rules` list |
| Scenarios.UninstallKeepsOtherBlock | packages/cli/tests/blocks/installer.test.ts:152-172 | uninstalling `block-a` leaves exactly `block-b`'s rule |
| Scenarios.UninstallUnlistsBlock | packages/cli/tests/blocks/installer.test.ts:174-184 | after install and uninstall the config is still an object, `blocks` is a list, and it no longer holds `test-block` |
| Scenarios.UninstallUnknownBlock | packages/cli/tests/blocks/installer.test.ts:186-189 | uninstalling an unknown id returns 0 |
| Scenarios.DroppedScopeLeavesStaleRules | packages/cli/src/blocks/installer.ts:56-79 | re-installing `test-block` with only `rule-a` leaves `rule-b` in `security.yml`, and the next uninstall returns 2, not 1 |

## Left out

- Filesystem calls are replaced by the in-memory listing: `readFile`, `writeFile`, `mkdir`, `readdir`, `path.join`. Failures of `mkdir` and `writeFile` are not modelled. Neither are directory entries that cannot be opened, other than as `Unreadable`.
- YAML `parse` and `stringify` are a foreign library. A parsed file is one of the abstract variants, and writing then reading a document is taken as exact. Formatting such as `lineWidth` is not modelled.
- Installer.ScopeOfScopeFile: the model names a scope's file `scope + ".yml"` and uses that string as a key of the one-level listing, so distinct scopes always name distinct files. The source passes the name to `join` (`installer.ts:57`), which normalises it, and the file system then resolves it:
  - distinct scopes such as `x` and `./x` name the same file `x.yml`. The later scope's iteration reads what the earlier one wrote, drops the block entries just appended (`installer.ts:65`), and appends its own; the file ends up with only the later scope's rules, yet `rulesAdded` counts both. A case-insensitive file system merges `Security` and `security` the same way;
  - a scope with a separator, such as `a/b`, names a file in a subdirectory: `writeFile` throws unless that subdirectory exists, and uninstall's one-level `readdir` (`installer.ts:92`, `100`) never lists it;
  - only `..` segments lead out of the rules directory.
- Installer.InstallBlock, InstallerProps.InstallIdempotent, InstallerProps.UninstallAfterInstall, InstallerProps.FreshRoundTrip: these describe the source only for blocks whose scopes are plain file names (no separator, no `.` or `..` segment) that stay distinct as the file system compares names. For a block with two scopes that name one file, the source's uninstall after a two-rule install returns 1, not 2.
- Items of a `rules` list are always mappings. A `null` item, which would make the filter throw, is not modelled. A non-string `sourceBlock` is not modelled either; it compares unequal to every id, like any other tag.
- A config whose YAML is a top-level sequence counts as an object in the source; the model has objects only. Items of `blocks` are strings.
- The opaque key tables (`others` of a config, a rule file and a rule entry) are not constrained to leave out the keys modelled as fields (`blocks`, `scope`/`rules`, `sourceBlock`), so the model admits states no YAML document has. The installer never reads those tables, so every contract holds for them too.
- Concurrent calls and interleaved writes are not modelled.
- `core/hash.ts`, the marked-content merger, the block registry and the CLI wiring in `index.ts` are not part of this model.
- Installer.InstallScopes: the scope loop is over the grouping's sequence in first-occurrence order. The model does not claim anything about the order in which files are written, only what each file holds at the end.
