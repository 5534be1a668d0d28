/** The project config document `.dwf/config.yml` and the two edits the
    installer makes to its `blocks` list. */
module Config {
  import opened Common

  /** The parsed config object: its `blocks` value (None when the key is
      missing or not a list) and every other key, passed through untouched. */
  datatype RawConfig = RawConfig(blocks: Option<seq<string>>, others: Fields)

  /** What reading and YAML-parsing the config file yields. */
  datatype ConfigFile =
    | ConfigMissing          // `readFile` throws
    | ConfigUnparseable      // `parse` throws
    | ConfigNotObject        // parses to null or a scalar
    | ConfigObject(doc: RawConfig)

  /** The errors `readRawConfig` lets escape. */
  datatype ConfigError = ReadFailed | ParseFailed | InvalidConfig

  /** `readRawConfig`: the config object, or the error it throws. */
  function ReadRawConfig(c: ConfigFile): (r: Result<RawConfig, ConfigError>)
    ensures r.Ok? <==> c.ConfigObject?
    ensures r.Ok? ==> r.value == c.doc
  {
    match c
    case ConfigMissing => Err(ReadFailed)
    case ConfigUnparseable => Err(ParseFailed)
    case ConfigNotObject => Err(InvalidConfig)
    case ConfigObject(doc) => Ok(doc)
  }

  /** The `blocks` list, with a missing or non-list value read as []. */
  function BlockIds(doc: RawConfig): seq<string> {
    doc.blocks.GetOr([])
  }

  /** Set-insert on a list: append `id` unless it is already there. The old
      list is a prefix of the result, and the only element that can be new is
      `id`, which ends up present without gaining a second occurrence. */
  function AddId(ids: seq<string>, id: string): (r: seq<string>)
    ensures id in r
    ensures |ids| <= |r| <= |ids| + 1 && r[..|ids|] == ids
    ensures forall x :: x in r <==> x in ids || x == id
    ensures multiset(r)[id] == if id in ids then multiset(ids)[id] else 1
    ensures forall x :: x != id ==> multiset(r)[x] == multiset(ids)[x]
  {
    if id in ids then ids else ids + [id]
  }

  /** Removal of an id from a list: every occurrence of `id` goes, and the
      other elements stay, in order. */
  function RemoveId(ids: seq<string>, id: string): (r: seq<string>)
    ensures id !in r
  {
    if |ids| == 0 then []
    else (if ids[0] == id then [] else [ids[0]]) + RemoveId(ids[1..], id)
  }

  /** Removal drops every occurrence of `id` and keeps every other element as
      often as it was there. */
  lemma {:induction false} RemoveIdCounts(ids: seq<string>, id: string)
    ensures multiset(RemoveId(ids, id)) == multiset(ids)[id := 0]
  {
    if |ids| > 0 {
      var head := if ids[0] == id then [] else [ids[0]];
      assert RemoveId(ids, id) == head + RemoveId(ids[1..], id);
      assert ids == [ids[0]] + ids[1..];
      assert multiset(ids) == multiset([ids[0]]) + multiset(ids[1..]);
      RemoveIdCounts(ids[1..], id);
    }
  }

  /** Removal distributes over concatenation, so the survivors keep their order. */
  lemma {:induction false} RemoveIdAppend(a: seq<string>, b: seq<string>, id: string)
    ensures RemoveId(a + b, id) == RemoveId(a, id) + RemoveId(b, id)
  {
    if |a| == 0 {
      assert a + b == b;
    } else {
      var head := if a[0] == id then [] else [a[0]];
      var ra := RemoveId(a[1..], id);
      var rb := RemoveId(b, id);
      assert (a + b)[1..] == a[1..] + b;
      assert RemoveId(a + b, id) == head + RemoveId(a[1..] + b, id);
      RemoveIdAppend(a[1..], b, id);
      AppendAssoc(head, ra, rb);
    }
  }

  /** Removing an absent id changes nothing. */
  lemma {:induction false} RemoveAbsentId(ids: seq<string>, id: string)
    requires id !in ids
    ensures RemoveId(ids, id) == ids
  {
    if |ids| > 0 {
      assert ids[0] != id;
      RemoveAbsentId(ids[1..], id);
      assert ids == [ids[0]] + ids[1..];
    }
  }

  /** Removal undoes insertion: whatever `AddId` did, `RemoveId` leaves the
      same list as removing from the original. */
  lemma RemoveAfterAdd(ids: seq<string>, id: string)
    ensures RemoveId(AddId(ids, id), id) == RemoveId(ids, id)
  {
    if id !in ids {
      RemoveIdAppend(ids, [id], id);
    }
  }

  /** `addBlockToConfig`: fails exactly when the config cannot be read as an
      object; otherwise `blocks` becomes exactly the set-insert of `blockId`
      into the old list (a non-list read as []) and every other key is kept. */
  function AddBlockToConfig(c: ConfigFile, blockId: string): (r: Result<ConfigFile, ConfigError>)
    ensures r.Err? <==> ReadRawConfig(c).Err?
    ensures r.Err? ==> r.error == ReadRawConfig(c).error
    ensures r.Ok? ==> r.value.ConfigObject? && r.value.doc.others == c.doc.others
    ensures r.Ok? ==> r.value.doc.blocks.Some? && blockId in r.value.doc.blocks.value
    ensures r.Ok? ==> var ids := r.value.doc.blocks.value;
              |BlockIds(c.doc)| <= |ids| && ids[..|BlockIds(c.doc)|] == BlockIds(c.doc)
    ensures r.Ok? ==> multiset(r.value.doc.blocks.value)[blockId]
                      == if blockId in BlockIds(c.doc) then multiset(BlockIds(c.doc))[blockId] else 1
    ensures r.Ok? ==> r.value.doc.blocks.value == AddId(BlockIds(c.doc), blockId)
  {
    match ReadRawConfig(c)
    case Err(e) => Err(e)
    case Ok(doc) => Ok(ConfigObject(RawConfig(Some(AddId(BlockIds(doc), blockId)), doc.others)))
  }

  /** `removeBlockFromConfig`: fails exactly when the config cannot be read as
      an object; otherwise `blocks` becomes exactly the old list (a non-list
      read as []) with every occurrence of `blockId` removed and the rest in
      order, and every other key is kept. */
  function RemoveBlockFromConfig(c: ConfigFile, blockId: string): (r: Result<ConfigFile, ConfigError>)
    ensures r.Err? <==> ReadRawConfig(c).Err?
    ensures r.Err? ==> r.error == ReadRawConfig(c).error
    ensures r.Ok? ==> r.value.ConfigObject? && r.value.doc.others == c.doc.others
    ensures r.Ok? ==> r.value.doc.blocks.Some? && blockId !in r.value.doc.blocks.value
    ensures r.Ok? ==> multiset(r.value.doc.blocks.value) == multiset(BlockIds(c.doc))[blockId := 0]
    ensures r.Ok? ==> r.value.doc.blocks.value == RemoveId(BlockIds(c.doc), blockId)
  {
    match ReadRawConfig(c)
    case Err(e) => Err(e)
    case Ok(doc) =>
      RemoveIdCounts(BlockIds(doc), blockId);
      Ok(ConfigObject(RawConfig(Some(RemoveId(BlockIds(doc), blockId)), doc.others)))
  }

  /** Adding a block twice gives the same config as adding it once. */
  lemma AddBlockIdempotent(c: ConfigFile, blockId: string)
    requires AddBlockToConfig(c, blockId).Ok?
    ensures AddBlockToConfig(AddBlockToConfig(c, blockId).value, blockId) == AddBlockToConfig(c, blockId)
  {
  }

  /** Removing a block twice gives the same config as removing it once. */
  lemma RemoveBlockIdempotent(c: ConfigFile, blockId: string)
    requires RemoveBlockFromConfig(c, blockId).Ok?
    ensures RemoveBlockFromConfig(RemoveBlockFromConfig(c, blockId).value, blockId)
            == RemoveBlockFromConfig(c, blockId)
  {
    var ids := RemoveBlockFromConfig(c, blockId).value.doc.blocks.value;
    RemoveAbsentId(ids, blockId);
  }

  /** Add then remove leaves the `blocks` list of a plain remove. */
  lemma RemoveAfterAddBlock(c: ConfigFile, blockId: string)
    requires AddBlockToConfig(c, blockId).Ok?
    ensures RemoveBlockFromConfig(AddBlockToConfig(c, blockId).value, blockId) == RemoveBlockFromConfig(c, blockId)
  {
    RemoveAfterAdd(BlockIds(c.doc), blockId);
  }
}
