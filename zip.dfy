/**
 * The zip container, with each entry holding the root element of its XML
 * document. Compression, streams and disposal are not modelled.
 */
module Zip {
  import opened Wrappers
  import opened Xml

  /** One archive entry: its container-relative name and its document's root element. */
  datatype Entry = Entry(path: string, root: XElement)

  /** An archive opened for reading: its entries in central-directory order. */
  type Archive = seq<Entry>

  /**
   * ZipArchive.GetEntry: the entry named `path` (exact, case-sensitive match),
   * the first one when a name occurs twice.
   */
  function GetEntry(archive: Archive, path: string): (r: Option<XElement>)
    ensures r.None? <==> forall i | 0 <= i < |archive| :: archive[i].path != path
    ensures r.Some? ==>
      exists i | 0 <= i < |archive| ::
        && archive[i] == Entry(path, r.value)
        && forall j | 0 <= j < i :: archive[j].path != path
  {
    if |archive| == 0 then None
    else if archive[0].path == path then Some(archive[0].root)
    else
      var rest := GetEntry(archive[1..], path);
      assert forall i | 1 <= i < |archive| :: archive[i] == archive[1..][i - 1];
      rest
  }

  /** An archive opened in create mode: entries are only ever appended. */
  class ZipArchive {
    var entries: seq<Entry>

    constructor ()
      ensures entries == []
    {
      entries := [];
    }

    /** CreateEntry followed by writing `root` as the entry's document; an empty name is refused. */
    method CreateEntry(path: string, root: XElement)
      requires path != ""
      modifies this
      ensures entries == old(entries) + [Entry(path, root)]
    {
      entries := entries + [Entry(path, root)];
    }
  }
}
