/**
 * Properties of the package layer: the layout save writes, how resolution
 * picks the model relationship, and that load finds the part save wrote.
 */
module PackageProperties {
  import opened Wrappers
  import opened Xml
  import opened Zip
  import opened Linq
  import opened Package
  import opened ThreeMf

  // ---- The manifests save writes ----

  /** The content-types manifest declares the rels and model extensions, in that order, with their MIME types. */
  lemma ContentTypesManifest()
    ensures var types := ContentTypesElement();
      && types.name == TypesName
      && |types.children| == 2
      && types.children[0].name == DefaultName
      && Attribute(types.children[0].attributes, Unqualified(ExtensionAttributeName)) == Some(RelsExtension)
      && Attribute(types.children[0].attributes, Unqualified(ContentTypeAttributeName)) == Some(RelsContentType)
      && types.children[1].name == DefaultName
      && Attribute(types.children[1].attributes, Unqualified(ExtensionAttributeName)) == Some(ModelExtension)
      && Attribute(types.children[1].attributes, Unqualified(ContentTypeAttributeName)) == Some(ModelContentType)
  {
  }

  /** The relationships manifest holds exactly one relationship: Id rel0, the model Type, Target /3D/3dmodel.model. */
  lemma RelationshipsManifest()
    ensures var rels := RelationshipsElement();
      && rels.name == RelationshipsName
      && |rels.children| == 1
      && IsModelRelationship(rels.children[0])
      && Attribute(rels.children[0].attributes, Unqualified(TargetAttributeName)) == Some("/3D/3dmodel.model")
      && Attribute(rels.children[0].attributes, Unqualified(IdAttributeName)) == Some(DefaultRelationshipId)
  {
    var attributes := RelationshipsElement().children[0].attributes;
    AttributeAt(attributes, 0);
    AttributeAt(attributes, 1);
    AttributeAt(attributes, 2);
  }

  /** Save's archive has exactly three entries, in creation order, each found under its own name. */
  lemma SavedArchiveLayout(modelXml: XElement)
    ensures var archive := SavedArchive(modelXml);
      && |archive| == 3
      && archive[0].path == "[Content_Types].xml"
      && archive[1].path == "_rels/.rels"
      && archive[2].path == "3D/3dmodel.model"
      && GetEntry(archive, ContentTypesPath) == Some(ContentTypesElement())
      && GetEntry(archive, RelsEntryPath) == Some(RelationshipsElement())
      && GetEntry(archive, ModelArchivePath) == Some(modelXml)
      && archive[..2] == ManifestEntries()
  {
  }

  /** The entries written before the model is chosen: the two manifests, in creation order. */
  lemma ManifestEntriesLayout()
    ensures |ManifestEntries()| == 2
    ensures ManifestEntries()[0] == Entry("[Content_Types].xml", ContentTypesElement())
    ensures ManifestEntries()[1] == Entry("_rels/.rels", RelationshipsElement())
  {
  }

  /** The model's entry name is the relationship target with its leading slash stripped. */
  lemma ModelArchivePathIsStrippedTarget()
    ensures ModelArchivePath == StripLeadingSlash(DefaultModelEntryPath)
    ensures DefaultModelEntryPath == "/" + ModelArchivePath
  {
  }

  /** Resolving the archive save wrote yields exactly the name save gave the model entry. */
  lemma SavedModelPathResolves(modelXml: XElement)
    ensures GetModelFilePath(SavedArchive(modelXml)) == Success(ModelArchivePath)
    ensures ModelArchivePath == "3D/3dmodel.model"
  {
    SavedRelationshipsResolve();
    SavedArchiveLayout(modelXml);
  }

  /** The relationships manifest save writes resolves to the model's entry name. */
  lemma SavedRelationshipsResolve()
    ensures ResolveModelTarget(RelationshipsElement()) == Success(ModelArchivePath)
  {
    RelationshipsManifest();
    var children := RelationshipsElement().children;
    assert IsFirstMatch(children, IsModelRelationship, 0);
    ModelArchivePathIsStrippedTarget();
  }

  // ---- Choosing the model relationship ----

  /**
   * Children that are not Relationship elements of the relationships
   * namespace, or that have no Type or another Type, are passed over.
   */
  lemma OtherChildrenSkipped(s: seq<XElement>, t: seq<XElement>)
    requires forall i | 0 <= i < |s| ::
      || s[i].name != RelationshipName
      || Attribute(s[i].attributes, Unqualified(TypeAttributeName)) != Some(ModelRelationshipType)
    ensures FirstOrDefault(s + t, IsModelRelationship).None? <==> FirstOrDefault(t, IsModelRelationship).None?
    ensures FirstOrDefault(t, IsModelRelationship).Some? ==>
      FirstOrDefault(s + t, IsModelRelationship) == Some(|s| + FirstOrDefault(t, IsModelRelationship).value)
  {
    NonMatchesSkipped(s, t, IsModelRelationship);
  }

  /** The name and attributes of the relationships root play no part in resolution. */
  lemma ResolutionReadsOnlyChildren(a: XElement, b: XElement)
    requires a.children == b.children
    ensures ResolveModelTarget(a) == ResolveModelTarget(b)
  {
  }

  // ---- Stripping the leading slash ----

  /** Stripping undoes the '/' that save puts in front of an archive-relative name. */
  lemma StripLeadingSlashInvertsPrefix(path: string)
    ensures StripLeadingSlash("/" + path) == path
  {
  }

  /** At most one slash goes: "/foo/bar.model" and "//x" lose one, "" and a relative name are unchanged. */
  lemma StripLeadingSlashExamples()
    ensures StripLeadingSlash("/foo/bar.model") == "foo/bar.model"
    ensures StripLeadingSlash("//x") == "/x"
    ensures StripLeadingSlash("") == ""
    ensures StripLeadingSlash("3D/3dmodel.model") == "3D/3dmodel.model"
  {
    assert "/foo/bar.model"[1..] == "foo/bar.model";
    assert "//x"[1..] == "/x";
  }

  // ---- Loading ----

  /** Load fails with a package error when there is no _rels/.rels entry. */
  lemma LoadFailsWithoutRelationships<M>(archive: Archive, loadXml: XElement -> Result<M, string>)
    requires forall i | 0 <= i < |archive| :: archive[i].path != "_rels/.rels"
    ensures LoadModel(archive, loadXml) == Failure(PackageError(MissingRelationshipFileMessage))
  {
  }

  /** Load fails with a package error when no child of the relationships root is a model relationship. */
  lemma LoadFailsWithoutModelRelationship<M>(archive: Archive, rels: XElement, loadXml: XElement -> Result<M, string>)
    requires GetEntry(archive, RelsEntryPath) == Some(rels)
    requires forall i | 0 <= i < |rels.children| :: !IsModelRelationship(rels.children[i])
    ensures LoadModel(archive, loadXml) == Failure(PackageError(NoModelRelationMessage))
  {
  }

  /** Load fails with a package error when the first model relationship has no Target attribute. */
  lemma LoadFailsWithoutTarget<M>(archive: Archive, rels: XElement, i: nat, loadXml: XElement -> Result<M, string>)
    requires GetEntry(archive, RelsEntryPath) == Some(rels)
    requires IsFirstMatch(rels.children, IsModelRelationship, i)
    requires Attribute(rels.children[i].attributes, Unqualified(TargetAttributeName)).None?
    ensures LoadModel(archive, loadXml) == Failure(PackageError(TargetNotSpecifiedMessage))
  {
  }

  /** Load fails with a package error when the resolved part is not in the archive. */
  lemma LoadFailsWhenModelPartMissing<M>(archive: Archive, path: string, loadXml: XElement -> Result<M, string>)
    requires GetModelFilePath(archive) == Success(path)
    requires forall i | 0 <= i < |archive| :: archive[i].path != path
    ensures LoadModel(archive, loadXml) == Failure(PackageError(NoModelMessage))
  {
  }

  /** When the resolved part exists, load hands its root to the model reader and keeps what it returns. */
  lemma LoadReadsResolvedPart<M>(archive: Archive, path: string, root: XElement, loadXml: XElement -> Result<M, string>)
    requires GetModelFilePath(archive) == Success(path)
    requires GetEntry(archive, path) == Some(root)
    ensures loadXml(root).Success? ==> LoadModel(archive, loadXml) == Success(loadXml(root).value)
    ensures loadXml(root).Failure? ==> LoadModel(archive, loadXml) == Failure(ModelError(loadXml(root).error))
  {
  }

  /** A successful load came from the resolved part, read by the model reader. */
  lemma LoadSuccessComesFromResolvedPart<M>(archive: Archive, loadXml: XElement -> Result<M, string>)
    requires LoadModel(archive, loadXml).Success?
    ensures GetModelFilePath(archive).Success?
    ensures GetEntry(archive, GetModelFilePath(archive).value).Some?
    ensures loadXml(GetEntry(archive, GetModelFilePath(archive).value).value) == Success(LoadModel(archive, loadXml).value)
  {
  }

  /** A hand-built package whose relationship targets /foo/bar.model loads the entry foo/bar.model. */
  lemma LoadsHandBuiltPackage<M>(root: XElement, loadXml: XElement -> Result<M, string>)
    ensures var rel := XElement(RelationshipName,
              [XAttribute(Unqualified("Target"), "/foo/bar.model"),
               XAttribute(Unqualified("Type"), ModelRelationshipType)], []);
      var archive := [Entry("_rels/.rels", XElement(RelationshipsName, [], [rel])), Entry("foo/bar.model", root)];
      && GetModelFilePath(archive) == Success("foo/bar.model")
      && (loadXml(root).Success? ==> LoadModel(archive, loadXml) == Success(loadXml(root).value))
  {
    var rel := XElement(RelationshipName,
      [XAttribute(Unqualified("Target"), "/foo/bar.model"),
       XAttribute(Unqualified("Type"), ModelRelationshipType)], []);
    AttributeAt(rel.attributes, 0);
    AttributeAt(rel.attributes, 1);
    assert IsFirstMatch([rel], IsModelRelationship, 0);
    StripLeadingSlashExamples();
    var archive := [Entry("_rels/.rels", XElement(RelationshipsName, [], [rel])), Entry("foo/bar.model", root)];
    assert archive[0].path != "foo/bar.model";
    assert GetEntry(archive, "foo/bar.model") == Some(root);
  }

  // ---- Save, then load ----

  /** Loading what save wrote for model `m` gives what the model reader makes of m's own XML. */
  lemma LoadAfterSave<M>(ops: ModelOps<M>, m: M)
    ensures var loaded := ops.loadXml(ops.toXml(m));
      && (loaded.Success? ==> LoadModel(SavedArchive(ops.toXml(m)), ops.loadXml) == Success(loaded.value))
      && (loaded.Failure? ==> LoadModel(SavedArchive(ops.toXml(m)), ops.loadXml) == Failure(ModelError(loaded.error)))
  {
    SavedModelPathResolves(ops.toXml(m));
    SavedArchiveLayout(ops.toXml(m));
  }

  /** When the model's own XML round-trips, load after save returns the saved model. */
  lemma SaveLoadRoundTrip<M>(ops: ModelOps<M>, m: M)
    requires ops.loadXml(ops.toXml(m)) == Success(m)
    ensures LoadModel(SavedArchive(ops.toXml(m)), ops.loadXml) == Success(m)
  {
    LoadAfterSave(ops, m);
  }
}
