/** Block definitions as the registry supplies them, and the grouping of a
    block's rules by scope that `installBlock` performs first. */
module Blocks {

  /** One rule of a block definition. */
  datatype BlockRule = BlockRule(
    id: string,
    scope: string,
    severity: string,
    content: string,
    tags: seq<string>)

  /** A block definition: a named, versioned bundle of rules. */
  datatype Block = Block(
    id: string,
    name: string,
    description: string,
    version: string,
    rules: seq<BlockRule>)

  /** One entry of the insertion-ordered `byScope` map. */
  datatype ScopeGroup = ScopeGroup(scope: string, rules: seq<BlockRule>)

  /** Reference definition: the rules of `rules` whose scope is `scope`, in order. */
  function InScope(rules: seq<BlockRule>, scope: string): seq<BlockRule> {
    if |rules| == 0 then []
    else InScope(rules[..|rules| - 1], scope)
         + (if rules[|rules| - 1].scope == scope then [rules[|rules| - 1]] else [])
  }

  /** The scopes named by a block's rules. */
  function ScopesOf(rules: seq<BlockRule>): set<string> {
    set r | r in rules :: r.scope
  }

  /** The keys of the grouping. */
  function Scopes(gs: seq<ScopeGroup>): set<string> {
    if |gs| == 0 then {} else {gs[0].scope} + Scopes(gs[1..])
  }

  /** No scope is the key of two groups. */
  predicate DistinctScopes(gs: seq<ScopeGroup>) {
    |gs| == 0 || (gs[0].scope !in Scopes(gs[1..]) && DistinctScopes(gs[1..]))
  }

  /** The rules grouped under `scope`, or none when no group has that key. */
  function GroupOf(gs: seq<ScopeGroup>, scope: string): seq<BlockRule> {
    if |gs| == 0 then []
    else if gs[0].scope == scope then gs[0].rules
    else GroupOf(gs[1..], scope)
  }

  /** Total number of rules held by the groups. */
  function Size(gs: seq<ScopeGroup>): nat {
    if |gs| == 0 then 0 else |gs[0].rules| + Size(gs[1..])
  }

  /** One step of the grouping loop: push `r` onto its scope's group, or open
      a new group at the end when its scope has none yet. */
  function AddToGroups(gs: seq<ScopeGroup>, r: BlockRule): (gs': seq<ScopeGroup>)
    requires DistinctScopes(gs)
    ensures DistinctScopes(gs')
    ensures Scopes(gs') == Scopes(gs) + {r.scope}
    ensures |gs'| == if r.scope in Scopes(gs) then |gs| else |gs| + 1
    ensures forall i :: 0 <= i < |gs| ==> gs'[i].scope == gs[i].scope
    ensures forall s :: GroupOf(gs', s) == GroupOf(gs, s) + (if s == r.scope then [r] else [])
    ensures Size(gs') == Size(gs) + 1
  {
    if |gs| == 0 then [ScopeGroup(r.scope, [r])]
    else if gs[0].scope == r.scope then
      var gs' := [ScopeGroup(r.scope, gs[0].rules + [r])] + gs[1..];
      assert gs'[1..] == gs[1..];
      gs'
    else
      var gs' := [gs[0]] + AddToGroups(gs[1..], r);
      assert gs'[1..] == AddToGroups(gs[1..], r);
      gs'
  }

  /** The grouping loop of `installBlock`. It partitions the rules: the keys are
      distinct and are exactly the scopes the rules name, every group is
      non-empty and holds exactly the rules of its scope in block order, and
      the groups hold |rules| rules in all. */
  function GroupByScope(rules: seq<BlockRule>): (gs: seq<ScopeGroup>)
    ensures DistinctScopes(gs)
    ensures Scopes(gs) == ScopesOf(rules)
    ensures forall s :: GroupOf(gs, s) == InScope(rules, s)
    ensures Size(gs) == |rules|
  {
    if |rules| == 0 then []
    else
      var init := rules[..|rules| - 1];
      assert rules == init + [rules[|rules| - 1]];
      assert ScopesOf(rules) == ScopesOf(init) + {rules[|rules| - 1].scope};
      AddToGroups(GroupByScope(init), rules[|rules| - 1])
  }

  /** Every group's key is a key of the grouping. */
  lemma {:induction false} ScopeAt(gs: seq<ScopeGroup>, i: nat)
    requires i < |gs|
    ensures gs[i].scope in Scopes(gs)
  {
    if i > 0 {
      ScopeAt(gs[1..], i - 1);
    }
  }

  /** With distinct keys, a group's rules are what `GroupOf` finds for its key. */
  lemma {:induction false} GroupOfAt(gs: seq<ScopeGroup>, i: nat)
    requires DistinctScopes(gs)
    requires i < |gs|
    ensures GroupOf(gs, gs[i].scope) == gs[i].rules
  {
    if i > 0 {
      ScopeAt(gs[1..], i - 1);
      GroupOfAt(gs[1..], i - 1);
    }
  }

  /** Every group of the grouping is non-empty and is exactly its scope's rules. */
  lemma GroupsAreScopes(rules: seq<BlockRule>, i: nat)
    requires i < |GroupByScope(rules)|
    ensures GroupByScope(rules)[i].rules == InScope(rules, GroupByScope(rules)[i].scope)
    ensures GroupByScope(rules)[i].rules != []
  {
    var gs := GroupByScope(rules);
    var scope := gs[i].scope;
    GroupOfAt(gs, i);
    ScopeAt(gs, i);
    assert scope in ScopesOf(rules);
    var r :| r in rules && r.scope == scope;
    InScopeHolds(rules, r);
  }

  /** A rule is in its own scope's group. */
  lemma {:induction false} InScopeHolds(rules: seq<BlockRule>, r: BlockRule)
    requires r in rules
    ensures r in InScope(rules, r.scope)
  {
    var init := rules[..|rules| - 1];
    if r != rules[|rules| - 1] {
      assert r in init;
      InScopeHolds(init, r);
    }
  }
}
