/** Per-scope rule files: what a file in the rules directory parses to, how the
    installer normalises it, and the filters it applies to a file's rules. */
module RuleFiles {
  import opened Common

  /** One item of a rule file's `rules` list. `sourceBlock` is the id of the
      block that installed it, absent for a project-local rule; `others` holds
      the remaining keys (`tags`, `enabled`, ...). */
  datatype RuleEntry = RuleEntry(
    id: string,
    severity: string,
    content: string,
    sourceBlock: Option<string>,
    others: Fields)

  /** A rule file as the installer holds it in memory: `{scope, rules}`. */
  datatype RuleDoc = RuleDoc(scope: string, rules: seq<RuleEntry>)

  /** What reading and YAML-parsing a file of the rules directory yields. */
  datatype StoredFile =
      /** reading the file or parsing its YAML throws */
    | Unreadable
      /** the YAML parses to null, false, 0, the empty string or another scalar */
    | NotObject
      /** the YAML parses to an object; `scope` is None when that key is missing
          or not a string, `rules` is None when that key is missing or not a list,
          `others` are the remaining top-level keys */
    | Parsed(scope: Option<string>, rules: Option<seq<RuleEntry>>, others: Fields)

  /** Reading a rule file: null for a missing file, a file that cannot be
      read or parsed, or one that is not an object; otherwise the document,
      with a missing or non-string `scope` read as "" and a missing or
      non-list `rules` read as [], present values kept. */
  function ReadRuleFile(f: Option<StoredFile>): (r: Option<RuleDoc>)
    ensures r.None? <==> !(f.Some? && f.value.Parsed?)
    ensures r.Some? ==> r.value.scope == f.value.scope.GetOr("")
    ensures r.Some? && f.value.rules.None? ==> r.value.rules == []
    ensures r.Some? && f.value.rules.Some? ==> r.value.rules == f.value.rules.value
  {
    match f
    case Some(Parsed(scope, rules, _)) => Some(RuleDoc(scope.GetOr(""), rules.GetOr([])))
    case _ => None
  }

  /** Writing a rule file: the file holds the document's two keys and nothing
      else, and reading it back gives the document that was written. */
  function WriteRuleFile(d: RuleDoc): (f: StoredFile)
    ensures ReadRuleFile(Some(f)) == Some(d)
    ensures f.Parsed? && f.others == map[]
  {
    Parsed(Some(d.scope), Some(d.rules), map[])
  }

  /** Reading normalises: a written-back read gives back the same document, and
      the only things lost are extra top-level keys and wrongly typed fields. */
  lemma WriteReadNormalises(f: StoredFile)
    requires ReadRuleFile(Some(f)).Some?
    ensures ReadRuleFile(Some(WriteRuleFile(ReadRuleFile(Some(f)).value))) == ReadRuleFile(Some(f))
    ensures f.Parsed? && f.scope.Some? && f.rules.Some? && f.others == map[]
            ==> WriteRuleFile(ReadRuleFile(Some(f)).value) == f
  {
  }

  /** The entry carries the back-reference `tag` (None: project-local). */
  predicate HasTag(e: RuleEntry, tag: Option<string>) {
    e.sourceBlock == tag
  }

  /** The entry was installed by block `blockId`. */
  predicate FromBlock(e: RuleEntry, blockId: string) {
    HasTag(e, Some(blockId))
  }

  /** The entries carrying `tag`, in their original order. */
  function Tagged(rules: seq<RuleEntry>, tag: Option<string>): (r: seq<RuleEntry>)
    ensures |r| <= |rules|
  {
    if |rules| == 0 then []
    else (if HasTag(rules[0], tag) then [rules[0]] else []) + Tagged(rules[1..], tag)
  }

  /** The entries installed by `blockId`, in their original order. */
  function OwnedBy(rules: seq<RuleEntry>, blockId: string): seq<RuleEntry> {
    Tagged(rules, Some(blockId))
  }

  /** The filter install and uninstall apply: every entry not installed by
      `blockId`, in order. Together with `OwnedBy` it splits the
      list: the two parts account for every entry. */
  function WithoutBlock(rules: seq<RuleEntry>, blockId: string): (kept: seq<RuleEntry>)
    ensures |kept| + |OwnedBy(rules, blockId)| == |rules|
  {
    if |rules| == 0 then []
    else (if FromBlock(rules[0], blockId) then [] else [rules[0]]) + WithoutBlock(rules[1..], blockId)
  }

  /** The filter keeps exactly the entries not installed by `blockId`. */
  lemma {:induction false} WithoutBlockMembers(rules: seq<RuleEntry>, blockId: string)
    ensures forall e :: e in WithoutBlock(rules, blockId) <==> e in rules && !FromBlock(e, blockId)
  {
    if |rules| > 0 {
      WithoutBlockMembers(rules[1..], blockId);
      assert rules == [rules[0]] + rules[1..];
    }
  }

  /** Filtering distributes over concatenation, so it keeps relative order. */
  lemma {:induction false} WithoutBlockAppend(a: seq<RuleEntry>, b: seq<RuleEntry>, blockId: string)
    ensures WithoutBlock(a + b, blockId) == WithoutBlock(a, blockId) + WithoutBlock(b, blockId)
  {
    if |a| == 0 {
      assert a + b == b;
    } else {
      var head := if FromBlock(a[0], blockId) then [] else [a[0]];
      assert (a + b)[1..] == a[1..] + b;
      assert WithoutBlock(a + b, blockId) == head + WithoutBlock(a[1..] + b, blockId);
      WithoutBlockAppend(a[1..], b, blockId);
      AppendAssoc(head, WithoutBlock(a[1..], blockId), WithoutBlock(b, blockId));
    }
  }

  /** `Tagged` distributes over concatenation. */
  lemma {:induction false} TaggedAppend(a: seq<RuleEntry>, b: seq<RuleEntry>, tag: Option<string>)
    ensures Tagged(a + b, tag) == Tagged(a, tag) + Tagged(b, tag)
  {
    if |a| == 0 {
      assert a + b == b;
    } else {
      var head := if HasTag(a[0], tag) then [a[0]] else [];
      assert (a + b)[1..] == a[1..] + b;
      assert Tagged(a + b, tag) == head + Tagged(a[1..] + b, tag);
      TaggedAppend(a[1..], b, tag);
      AppendAssoc(head, Tagged(a[1..], tag), Tagged(b, tag));
    }
  }

  /** A list holding no entry of `blockId` is left as it is by the filter. */
  lemma {:induction false} WithoutBlockOfClean(rules: seq<RuleEntry>, blockId: string)
    requires forall e :: e in rules ==> !FromBlock(e, blockId)
    ensures WithoutBlock(rules, blockId) == rules
  {
    if |rules| > 0 {
      assert rules[0] in rules;
      WithoutBlockOfClean(rules[1..], blockId);
      assert rules == [rules[0]] + rules[1..];
    }
  }

  /** Filtering twice is filtering once. */
  lemma WithoutBlockIdempotent(rules: seq<RuleEntry>, blockId: string)
    ensures WithoutBlock(WithoutBlock(rules, blockId), blockId) == WithoutBlock(rules, blockId)
  {
    WithoutBlockMembers(rules, blockId);
    WithoutBlockOfClean(WithoutBlock(rules, blockId), blockId);
  }

  /** A filtered list holds no entry of the block. */
  lemma {:induction false} OwnedByOfFiltered(rules: seq<RuleEntry>, blockId: string)
    ensures OwnedBy(WithoutBlock(rules, blockId), blockId) == []
  {
    if |rules| > 0 {
      var head := if FromBlock(rules[0], blockId) then [] else [rules[0]];
      TaggedAppend(head, WithoutBlock(rules[1..], blockId), Some(blockId));
      OwnedByOfFiltered(rules[1..], blockId);
    }
  }

  /** Isolation: removing one block's entries leaves the entries of every other
      block, and the project-local ones, exactly as they were, in order. */
  lemma {:induction false} TaggedOfFiltered(rules: seq<RuleEntry>, blockId: string, tag: Option<string>)
    requires tag != Some(blockId)
    ensures Tagged(WithoutBlock(rules, blockId), tag) == Tagged(rules, tag)
  {
    if |rules| > 0 {
      var head := if FromBlock(rules[0], blockId) then [] else [rules[0]];
      TaggedAppend(head, WithoutBlock(rules[1..], blockId), tag);
      TaggedOfFiltered(rules[1..], blockId, tag);
    }
  }

  /** A list whose every entry carries `tag` is its own `Tagged` view. */
  lemma {:induction false} TaggedOfUniform(rules: seq<RuleEntry>, tag: Option<string>)
    requires forall e :: e in rules ==> HasTag(e, tag)
    ensures Tagged(rules, tag) == rules
  {
    if |rules| > 0 {
      assert rules[0] in rules;
      TaggedOfUniform(rules[1..], tag);
      assert rules == [rules[0]] + rules[1..];
    }
  }

  /** A list made only of `blockId`'s entries is emptied by the filter. */
  lemma {:induction false} WithoutBlockOfOwned(rules: seq<RuleEntry>, blockId: string)
    requires forall e :: e in rules ==> FromBlock(e, blockId)
    ensures WithoutBlock(rules, blockId) == []
  {
    if |rules| > 0 {
      assert rules[0] in rules;
      WithoutBlockOfOwned(rules[1..], blockId);
    }
  }

  /** Replacing a block's entries: dropping them and appending a list made
      only of the block's entries splits back into the kept part and the
      appended part. */
  lemma ReplaceBlockEntries(rules: seq<RuleEntry>, blockId: string, added: seq<RuleEntry>)
    requires forall e :: e in added ==> FromBlock(e, blockId)
    ensures WithoutBlock(WithoutBlock(rules, blockId) + added, blockId) == WithoutBlock(rules, blockId)
    ensures OwnedBy(WithoutBlock(rules, blockId) + added, blockId) == added
  {
    var kept := WithoutBlock(rules, blockId);
    assert WithoutBlock(kept + added, blockId) == kept by {
      WithoutBlockAppend(kept, added, blockId);
      WithoutBlockIdempotent(rules, blockId);
      WithoutBlockOfOwned(added, blockId);
      assert kept + [] == kept;
    }
    assert OwnedBy(kept + added, blockId) == added by {
      TaggedAppend(kept, added, Some(blockId));
      OwnedByOfFiltered(rules, blockId);
      TaggedOfUniform(added, Some(blockId));
    }
  }
}
