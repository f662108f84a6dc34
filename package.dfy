/**
 * The package layer of a 3MF file: the fixed part layout written on save,
 * and the resolution of the model part through the package relationships
 * (the Open Packaging Conventions, ECMA-376 Part 2).
 */
module Package {
  import opened Wrappers
  import opened Xml
  import opened Zip
  import opened Linq

  // ---- Fixed names, paths and content types ----

  const ContentTypesNamespace := "http://schemas.openxmlformats.org/package/2006/content-types"
  const RelationshipNamespace := "http://schemas.openxmlformats.org/package/2006/relationships"
  const ModelRelationshipType := "http://schemas.microsoft.com/3dmanufacturing/2013/01/3dmodel"
  const ExtensionAttributeName := "Extension"
  const ContentTypeAttributeName := "ContentType"
  const RelsExtension := "rels"
  const ModelExtension := "model"
  const RelsContentType := "application/vnd.openxmlformats-package.relationships+xml"
  const ModelContentType := "application/vnd.ms-package.3dmanufacturing-3dmodel+xml"
  const ContentTypesPath := "[Content_Types].xml"
  /** The model part's name in package (absolute, leading '/') form. */
  const DefaultModelEntryPath := "/3D/3dmodel.model"
  const RelsEntryPath := "_rels/.rels"
  const DefaultRelationshipId := "rel0"
  const TargetAttributeName := "Target"
  const IdAttributeName := "Id"
  const TypeAttributeName := "Type"

  const TypesName := XName(ContentTypesNamespace, "Types")
  const DefaultName := XName(ContentTypesNamespace, "Default")
  const RelationshipsName := XName(RelationshipNamespace, "Relationships")
  const RelationshipName := XName(RelationshipNamespace, "Relationship")

  /** Where save puts the model: the default model path with its first character cut off. */
  const ModelArchivePath := DefaultModelEntryPath[1..]

  // ---- Errors ----

  /**
   * PackageError is ThreeMfPackageException; InvalidOperation is what
   * SingleOrDefault throws for a list of two or more models; ModelError is a
   * failure reported by the model's own XML reader.
   */
  datatype Error =
    | PackageError(message: string)
    | InvalidOperation(message: string)
    | ModelError(message: string)

  const MissingRelationshipFileMessage := "Invalid package: missing relationship file."
  const NoModelRelationMessage := "Package does not contain a root 3MF relation."
  const TargetNotSpecifiedMessage := "Relationship target not specified."
  const NoModelMessage := "Package does not contain a model."
  const MoreThanOneModelMessage := "Sequence contains more than one element"

  // ---- Writing the structural parts ----

  /** A content-types Default record mapping `extension` to `contentType`. */
  function GetDefaultContentType(extension: string, contentType: string): (e: XElement)
    ensures e.name == DefaultName && e.children == []
    ensures Attribute(e.attributes, Unqualified(ExtensionAttributeName)) == Some(extension)
    ensures Attribute(e.attributes, Unqualified(ContentTypeAttributeName)) == Some(contentType)
  {
    XElement(DefaultName,
      [XAttribute(Unqualified(ExtensionAttributeName), extension),
       XAttribute(Unqualified(ContentTypeAttributeName), contentType)],
      [])
  }

  /** The content-types manifest written on save. */
  function ContentTypesElement(): (types: XElement)
  {
    XElement(TypesName, [],
      [GetDefaultContentType(RelsExtension, RelsContentType),
       GetDefaultContentType(ModelExtension, ModelContentType)])
  }

  /** The relationships manifest written on save: one relationship to the default model part. */
  function RelationshipsElement(): (rels: XElement)
  {
    XElement(RelationshipsName, [],
      [XElement(RelationshipName,
        [XAttribute(Unqualified(TargetAttributeName), DefaultModelEntryPath),
         XAttribute(Unqualified(IdAttributeName), DefaultRelationshipId),
         XAttribute(Unqualified(TypeAttributeName), ModelRelationshipType)],
        [])])
  }

  /** The two manifests, in the order save creates them. */
  function ManifestEntries(): (entries: Archive)
  {
    [Entry(ContentTypesPath, ContentTypesElement()), Entry(RelsEntryPath, RelationshipsElement())]
  }

  /** The archive a successful save produces when the chosen model serialises to `modelXml`. */
  function SavedArchive(modelXml: XElement): (archive: Archive)
  {
    ManifestEntries() + [Entry(ModelArchivePath, modelXml)]
  }

  // ---- Resolving the model part ----

  /** A Relationship element of the relationships namespace whose Type is the 3D-model relation. */
  predicate IsModelRelationship(e: XElement)
  {
    e.name == RelationshipName
    && Attribute(e.attributes, Unqualified(TypeAttributeName)) == Some(ModelRelationshipType)
  }

  /** Package-absolute to archive-relative: remove one leading '/', if there is one. */
  function StripLeadingSlash(target: string): (r: string)
    ensures |target| > 0 && target[0] == '/' ==> "/" + r == target
    ensures !(|target| > 0 && target[0] == '/') ==> r == target
  {
    if |target| > 0 && target[0] == '/' then target[1..] else target
  }

  /**
   * The model path named by a relationships document with root `rels`:
   * the Target of its first model relationship, made archive-relative.
   * The name of the root element itself is not checked. Filtering the
   * children by name and then taking the first whose Type matches picks the
   * same element as taking the first child with both properties.
   */
  function ResolveModelTarget(rels: XElement): (r: Result<string, Error>)
    ensures (forall i | 0 <= i < |rels.children| :: !IsModelRelationship(rels.children[i]))
            <==> r == Failure(PackageError(NoModelRelationMessage))
    ensures forall i | IsFirstMatch(rels.children, IsModelRelationship, i) ::
      var target := Attribute(rels.children[i].attributes, Unqualified(TargetAttributeName));
      && (target.None? ==> r == Failure(PackageError(TargetNotSpecifiedMessage)))
      && (target.Some? ==> r == Success(StripLeadingSlash(target.value)))
  {
    match FirstOrDefault(rels.children, IsModelRelationship)
    case None => Failure(PackageError(NoModelRelationMessage))
    case Some(k) =>
      match Attribute(rels.children[k].attributes, Unqualified(TargetAttributeName))
      case None => Failure(PackageError(TargetNotSpecifiedMessage))
      case Some(target) => Success(StripLeadingSlash(target))
  }

  /** GetModelFilePath: the archive-relative name of the model part, or the package error that stops loading. */
  function GetModelFilePath(archive: Archive): (r: Result<string, Error>)
    ensures GetEntry(archive, RelsEntryPath).None? <==> r == Failure(PackageError(MissingRelationshipFileMessage))
    ensures GetEntry(archive, RelsEntryPath).Some? ==> r == ResolveModelTarget(GetEntry(archive, RelsEntryPath).value)
  {
    match GetEntry(archive, RelsEntryPath)
    case None => Failure(PackageError(MissingRelationshipFileMessage))
    case Some(rels) => ResolveModelTarget(rels)
  }

  // ---- Loading ----

  /**
   * The model Load builds from `archive`, with `loadXml` standing for
   * ThreeMfModel.LoadXml applied to the root of the model part.
   */
  function LoadModel<M>(archive: Archive, loadXml: XElement -> Result<M, string>): (r: Result<M, Error>)
    ensures GetModelFilePath(archive).Failure? ==> r == Failure(GetModelFilePath(archive).error)
    ensures GetModelFilePath(archive).Success? ==>
      var part := GetEntry(archive, GetModelFilePath(archive).value);
      && (part.None? ==> r == Failure(PackageError(NoModelMessage)))
      && (part.Some? && loadXml(part.value).Success? ==> r == Success(loadXml(part.value).value))
      && (part.Some? && loadXml(part.value).Failure? ==> r == Failure(ModelError(loadXml(part.value).error)))
  {
    match GetModelFilePath(archive)
    case Failure(e) => Failure(e)
    case Success(path) =>
      match GetEntry(archive, path)
      case None => Failure(PackageError(NoModelMessage))
      case Some(root) =>
        match loadXml(root)
        case Failure(message) => Failure(ModelError(message))
        case Success(model) => Success(model)
  }
}
