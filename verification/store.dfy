/** The rules directory `.dwf/rules` as an in-memory listing of named files. */
module Store {
  import opened Common
  import opened RuleFiles

  /** A directory entry: a file name and what the file parses to. */
  datatype Entry = Entry(name: string, file: StoredFile)

  /** The rules directory: absent (it cannot be listed), or its entries in
      listing order. A name that is not listed is a missing file. */
  datatype RulesDir = NoDir | Dir(entries: seq<Entry>)

  /** No file name is listed twice, as in a real directory. */
  predicate DistinctNames(es: seq<Entry>) {
    |es| == 0 || (es[0].name !in Names(es[1..]) && DistinctNames(es[1..]))
  }

  /** The listed file names. */
  function Names(es: seq<Entry>): set<string> {
    if |es| == 0 then {} else {es[0].name} + Names(es[1..])
  }

  /** The entries install sees after creating the rules directory if it was
      missing: none for a fresh directory, the listing otherwise. */
  function EntriesOf(dir: RulesDir): seq<Entry> {
    match dir
    case NoDir => []
    case Dir(entries) => entries
  }

  /** Opening `name`: the file, or None when it is missing. */
  function Lookup(es: seq<Entry>, name: string): (f: Option<StoredFile>)
    ensures f.None? <==> name !in Names(es)
    ensures f.Some? ==> Entry(name, f.value) in es
  {
    if |es| == 0 then None
    else if es[0].name == name then Some(es[0].file)
    else Lookup(es[1..], name)
  }

  /** Writing the file `name`: it now reads as `f`, every other name reads
      as before, no name is listed twice that was not before, and writing what
      is already there changes nothing. */
  function WriteFile(es: seq<Entry>, name: string, f: StoredFile): (es': seq<Entry>)
    ensures Lookup(es', name) == Some(f)
    ensures forall n :: n != name ==> Lookup(es', n) == Lookup(es, n)
    ensures Names(es') == Names(es) + {name}
    ensures DistinctNames(es) ==> DistinctNames(es')
    ensures Lookup(es, name) == Some(f) ==> es' == es
  {
    if |es| == 0 then [Entry(name, f)]
    else if es[0].name == name then
      var es' := [Entry(name, f)] + es[1..];
      assert es'[1..] == es[1..];
      es'
    else
      var es' := [es[0]] + WriteFile(es[1..], name, f);
      assert es'[1..] == WriteFile(es[1..], name, f);
      es'
  }
}
