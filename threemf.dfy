/**
 * ThreeMfFile: an in-memory 3MF file holding its models, saved to and
 * loaded from a zip archive through the package layer.
 */
module ThreeMf {
  import opened Wrappers
  import opened Xml
  import opened Zip
  import opened Package

  /**
   * What the package layer asks of the model, which it treats as opaque:
   * ThreeMfModel.ToXElement, ThreeMfModel.LoadXml (which may fail with a
   * message) and the model built by `new ThreeMfModel()`.
   */
  datatype ModelOps<!M> = ModelOps(
    toXml: M -> XElement,
    loadXml: XElement -> Result<M, string>,
    empty: M)

  class ThreeMfFile<M> {
    /** The Models list, in order. */
    var models: seq<M>

    constructor ()
      ensures models == []
    {
      models := [];
    }

    /** Models.Add. */
    method AddModel(model: M)
      modifies this
      ensures models == old(models) + [model]
    {
      models := models + [model];
    }

    /** Serialises `xml` as a new entry called `path` at the end of `archive`. */
    static method WriteXmlToArchive(archive: ZipArchive, xml: XElement, path: string)
      requires path != ""
      modifies archive
      ensures archive.entries == old(archive.entries) + [Entry(path, xml)]
    {
      archive.CreateEntry(path, xml);
    }

    /**
     * Save into a new archive: the content-types manifest, the relationships
     * manifest and then the model part. With no model the default model is
     * written; with two or more, SingleOrDefault fails after the two
     * manifests have been written, and those stay in the archive.
     */
    method Save(ops: ModelOps<M>) returns (archive: ZipArchive, r: Outcome<Error>)
      ensures fresh(archive)
      ensures models == old(models)
      ensures r.Pass? <==> |models| <= 1
      ensures |models| == 0 ==> archive.entries == SavedArchive(ops.toXml(ops.empty))
      ensures |models| == 1 ==> archive.entries == SavedArchive(ops.toXml(models[0]))
      ensures |models| > 1 ==>
        r == Fail(InvalidOperation(MoreThanOneModelMessage)) && archive.entries == ManifestEntries()
    {
      archive := new ZipArchive();

      var contentTypes := ContentTypesElement();
      WriteXmlToArchive(archive, contentTypes, ContentTypesPath);

      var rels := RelationshipsElement();
      WriteXmlToArchive(archive, rels, RelsEntryPath);

      if |models| > 1 {
        r := Fail(InvalidOperation(MoreThanOneModelMessage));
        return;
      }
      var model := if |models| == 1 then models[0] else ops.empty;
      var modelXml := ops.toXml(model);
      // ModelArchivePath is DefaultModelEntryPath with its leading slash cut off.
      WriteXmlToArchive(archive, modelXml, ModelArchivePath);
      r := Pass;
    }

    /**
     * Load from an archive: resolve the model part, require it to exist, and
     * return a new file whose only model is the one read from that part.
     */
    static method Load(archive: Archive, ops: ModelOps<M>) returns (r: Result<ThreeMfFile<M>, Error>)
      ensures r.Failure? <==> LoadModel(archive, ops.loadXml).Failure?
      ensures r.Failure? ==> r.error == LoadModel(archive, ops.loadXml).error
      ensures r.Success? ==> fresh(r.value) && r.value.models == [LoadModel(archive, ops.loadXml).value]
    {
      var path := GetModelFilePath(archive);
      if path.Failure? {
        return Failure(path.error);
      }
      var modelEntry := GetEntry(archive, path.value);
      if modelEntry.None? {
        return Failure(PackageError(NoModelMessage));
      }
      var model := ops.loadXml(modelEntry.value);
      if model.Failure? {
        return Failure(ModelError(model.error));
      }
      var file := new ThreeMfFile();
      file.AddModel(model.value);
      return Success(file);
    }
  }
}
