# 3MF package layer, modelled in Dafny

This project models the package layer of the IxMilia 3MF library. The
`ThreeMfFile` class saves its models into a zip container and loads one back.
A 3MF file is an Open Packaging Conventions package (ECMA-376 Part 2). It holds:

- a content-types manifest `[Content_Types].xml`, declaring MIME types for the `rels` and `model` extensions;
- a relationships manifest `_rels/.rels`, whose model relationship has a package-absolute `Target` (leading `/`);
- the model part, stored under the archive-relative form of that target (`3D/3dmodel.model` on save).

Modules, one per concept:

- `Wrappers`: the `Option`, `Result` and `Outcome` datatypes.
- `Xml`: an abstract LINQ to XML tree. An `XName` is a namespace plus a local name. An element has attributes in order and child elements in document order. `Attribute` is `XElement.Attribute(name)?.Value`.
- `Zip`: an archive opened for reading is a sequence of `Entry(path, root)`. `GetEntry` behaves like `ZipArchive.GetEntry`. `ZipArchive` is a class for an archive in create mode, whose `CreateEntry` appends an entry.
- `Linq`: `FirstOrDefault(predicate)`, returning the position of the element found.
- `Package`: the constants of `ThreeMfFile.cs` lines 15–35 and the error kinds. It also holds the two manifests `Save` writes, `GetDefaultContentType`, `GetModelFilePath` with the slash stripping, and `LoadModel`, the pure specification of what `Load` returns.
- `ThreeMf`: the class `ThreeMfFile<M>` with its `models` list and the methods `AddModel` (`Models.Add`), `WriteXmlToArchive`, `Save` and `Load`.
- `PackageProperties`: lemmas connecting them. `Save` writes exactly three entries in a fixed order. The relationships manifest it writes resolves, through `GetModelFilePath`, to the very entry name the model was stored under. `Load` fails with a package error for each structural defect. Loading what `Save` wrote gives back the model whenever the model's own XML round-trips.

The model type is opaque: `ThreeMfFile` takes a type parameter `M`, and a `ModelOps<M>` value supplies three things:

- `ThreeMfModel.ToXElement`;
- `ThreeMfModel.LoadXml`, which may fail with a message;
- the model made by `new ThreeMfModel()`.

Errors are results instead of exceptions:

- `PackageError(message)` stands for `ThreeMfPackageException`, with the source's messages.
- `InvalidOperation` is what `SingleOrDefault` throws for two or more models.
- `ModelError` carries a failure of the model reader.

Behaviour of the code that is easy to assume otherwise:

- With two or more models, `Save` does not fall back to the default model. `SingleOrDefault` throws after the two manifests have been written. The model returns `Fail(InvalidOperation(..))` and leaves the archive holding those two entries.
- Only an absent `Target` attribute is rejected. An empty `Target` resolves to the empty path.
- Failures to open the archive are not wrapped into a package error, and no such error kind is modelled.
- Creating an entry whose name already exists is not an error in create mode, so no write error is modelled. `Save` writes three distinct names.
- `ZipArchive.CreateEntry` refuses an empty entry name. `CreateEntry` and `WriteXmlToArchive` require a non-empty name, which the three fixed names `Save` passes always are.
- The name of the relationships root element is never checked. Only its direct children are searched (`ResolutionReadsOnlyChildren`).

## Model

| member | source | states |
|---|---|---|
| `Linq.FirstOrDefault` | src/IxMilia.ThreeMf/ThreeMfFile.cs:121 | None exactly when no element satisfies the predicate; otherwise the position of the first element that does, every earlier one failing it |
| `Linq.FirstMatchIsFound` | src/IxMilia.ThreeMf/ThreeMfFile.cs:121 | the first match in document order is exactly what the search returns |
| `Linq.LaterMatchesIgnored` | src/IxMilia.ThreeMf/ThreeMfFile.cs:121 | once a prefix holds a match, elements after it never change the result |
| `Linq.NonMatchesSkipped` | src/IxMilia.ThreeMf/ThreeMfFile.cs:121 | a prefix without matches is passed over: the result is the first match after it, shifted by the prefix length, or none |
| `Xml.Attribute` | src/IxMilia.ThreeMf/ThreeMfFile.cs:127 | None exactly when no attribute has the name; otherwise the value of the first attribute with that name |
| `Zip.GetEntry` | src/IxMilia.ThreeMf/ThreeMfFile.cs:93 | None exactly when no entry has the name; otherwise the root of the first entry with that name |
| `Zip.ZipArchive.constructor` | src/IxMilia.ThreeMf/ThreeMfFile.cs:48 | a new archive in create mode has no entries |
| `Zip.ZipArchive.CreateEntry` | src/IxMilia.ThreeMf/ThreeMfFile.cs:79 | the new entry is appended after all existing ones, which are unchanged |
| `Package.GetDefaultContentType` | src/IxMilia.ThreeMf/ThreeMfFile.cs:70-75 | a childless `Default` element (content-types namespace) whose unqualified `Extension` and `ContentType` attributes read back as the two arguments |
| `Package.StripLeadingSlash` | src/IxMilia.ThreeMf/ThreeMfFile.cs:133-137 | a target starting with `/` is that `/` followed by the result; any other target is returned unchanged |
| `Package.ResolveModelTarget` | src/IxMilia.ThreeMf/ThreeMfFile.cs:120-139 | fails with "Package does not contain a root 3MF relation." exactly when no child is a model relationship. For the first model relationship: no `Target` fails with "Relationship target not specified."; otherwise the result is that `Target` with one leading slash stripped |
| `Package.GetModelFilePath` | src/IxMilia.ThreeMf/ThreeMfFile.cs:110-116 | fails with "Invalid package: missing relationship file." exactly when `_rels/.rels` is absent; otherwise resolves that entry's root |
| `Package.LoadModel` | src/IxMilia.ThreeMf/ThreeMfFile.cs:92-102 | a resolution failure is returned unchanged; a resolved path naming no entry fails with "Package does not contain a model."; otherwise the result is the model reader's success or failure on that entry's root |
| `ThreeMf.ThreeMfFile.constructor` | src/IxMilia.ThreeMf/ThreeMfFile.cs:44 | a new file holds no models |
| `ThreeMf.ThreeMfFile.AddModel` | src/IxMilia.ThreeMf/ThreeMfFile.cs:104 | the model is appended to the list |
| `ThreeMf.ThreeMfFile.WriteXmlToArchive` | src/IxMilia.ThreeMf/ThreeMfFile.cs:77-86 | the archive gains one entry at its end, holding the element under the given path |
| `ThreeMf.ThreeMfFile.Save` | src/IxMilia.ThreeMf/ThreeMfFile.cs:46-68 | the result is a fresh archive and the models list is unchanged. Zero models: the three-entry layout carrying the default model's XML. One model: the same layout carrying that model's XML. More: fails with InvalidOperation, leaving only the two manifests |
| `ThreeMf.ThreeMfFile.Load` | src/IxMilia.ThreeMf/ThreeMfFile.cs:88-108 | fails exactly when `LoadModel` fails, with the same error; on success returns a fresh file whose models are exactly the one `LoadModel` built |
| `PackageProperties.ContentTypesManifest` | src/IxMilia.ThreeMf/ThreeMfFile.cs:50-52 | the content-types manifest is a `Types` element with two `Default` children: `rels` to the relationships MIME type, then `model` to the 3D-model MIME type |
| `PackageProperties.RelationshipsManifest` | src/IxMilia.ThreeMf/ThreeMfFile.cs:55-59 | the relationships manifest has exactly one child. It is a model relationship with `Target` `/3D/3dmodel.model` and `Id` `rel0` |
| `PackageProperties.SavedArchiveLayout` | src/IxMilia.ThreeMf/ThreeMfFile.cs:50-66 | the saved archive has exactly three entries, `[Content_Types].xml`, `_rels/.rels` and `3D/3dmodel.model` in that order, each read back under its own name; its first two entries are the manifests written before the model is chosen |
| `PackageProperties.ManifestEntriesLayout` | src/IxMilia.ThreeMf/ThreeMfFile.cs:50-60 | the entries written before the model is chosen are exactly two: `[Content_Types].xml` holding the content-types manifest, then `_rels/.rels` holding the relationships manifest |
| `PackageProperties.ModelArchivePathIsStrippedTarget` | src/IxMilia.ThreeMf/ThreeMfFile.cs:65 | the model entry name (`Substring(1)` of the default path) equals the slash-stripped relationship target, and prefixing `/` restores the target |
| `PackageProperties.SavedRelationshipsResolve` | src/IxMilia.ThreeMf/ThreeMfFile.cs:55-59 | resolving the relationships manifest `Save` writes gives the model's entry name |
| `PackageProperties.SavedModelPathResolves` | src/IxMilia.ThreeMf/ThreeMfFile.cs:25-26 | `GetModelFilePath` on any saved archive succeeds with `3D/3dmodel.model`, the name of the model entry `Save` created |
| `PackageProperties.OtherChildrenSkipped` | src/IxMilia.ThreeMf/ThreeMfFile.cs:121 | children with another name or namespace, no `Type`, or another `Type` are passed over by the relationship search |
| `PackageProperties.ResolutionReadsOnlyChildren` | src/IxMilia.ThreeMf/ThreeMfFile.cs:120-121 | two relationship roots with the same children resolve alike, whatever their own name or attributes |
| `PackageProperties.StripLeadingSlashInvertsPrefix` | src/IxMilia.ThreeMf/ThreeMfFile.cs:133-136 | stripping undoes a prefixed `/` for every path |
| `PackageProperties.StripLeadingSlashExamples` | src/IxMilia.ThreeMf/ThreeMfFile.cs:133-139 | `/foo/bar.model` becomes `foo/bar.model`, `//x` becomes `/x`; the empty string and a relative path stay unchanged |
| `PackageProperties.LoadFailsWithoutRelationships` | src/IxMilia.ThreeMf/ThreeMfFile.cs:112-116 | no `_rels/.rels` entry: load fails with the missing-relationship-file package error |
| `PackageProperties.LoadFailsWithoutModelRelationship` | src/IxMilia.ThreeMf/ThreeMfFile.cs:122-125 | no child of the relationships root is a model relationship: load fails with the no-root-relation package error |
| `PackageProperties.LoadFailsWithoutTarget` | src/IxMilia.ThreeMf/ThreeMfFile.cs:127-131 | the first model relationship has no `Target`: load fails with the target-not-specified package error |
| `PackageProperties.LoadFailsWhenModelPartMissing` | src/IxMilia.ThreeMf/ThreeMfFile.cs:93-97 | the resolved path names no entry: load fails with the "Package does not contain a model." package error |
| `PackageProperties.LoadReadsResolvedPart` | src/IxMilia.ThreeMf/ThreeMfFile.cs:99-102 | when the resolved entry exists, load returns what the model reader makes of its root, or that reader's failure |
| `PackageProperties.LoadSuccessComesFromResolvedPart` | src/IxMilia.ThreeMf/ThreeMfFile.cs:92-105 | every successful load resolved a path, found that entry, and its model is the reader's result on the entry's root |
| `PackageProperties.LoadsHandBuiltPackage` | src/IxMilia.ThreeMf/ThreeMfFile.cs:133-136 | a package whose relationship targets `/foo/bar.model` resolves to `foo/bar.model` and loads that entry's model unchanged |
| `PackageProperties.LoadAfterSave` | src/IxMilia.ThreeMf/ThreeMfFile.cs:63-66 | loading the archive saved for any model gives the reader's result on that model's XML, success or failure |
| `PackageProperties.SaveLoadRoundTrip` | src/IxMilia.ThreeMf/ThreeMfFile.cs:46-108 | if the model's XML reads back as the model, load after save returns exactly that model |

Five definitions have no contract of their own. Their behaviour is stated by the lemma rows above:

- `Package.IsModelRelationship`, the condition of the search at src/IxMilia.ThreeMf/ThreeMfFile.cs:121, is stated by `PackageProperties.OtherChildrenSkipped` and `Package.ResolveModelTarget`.
- `Package.ContentTypesElement`, the element built at src/IxMilia.ThreeMf/ThreeMfFile.cs:50-52, is stated by `PackageProperties.ContentTypesManifest`.
- `Package.RelationshipsElement`, the element built at src/IxMilia.ThreeMf/ThreeMfFile.cs:55-59, is stated by `PackageProperties.RelationshipsManifest` and `PackageProperties.SavedRelationshipsResolve`.
- `Package.ManifestEntries`, the two entries written at src/IxMilia.ThreeMf/ThreeMfFile.cs:50-60 before the model is chosen, is stated by `PackageProperties.ManifestEntriesLayout` and `PackageProperties.SavedArchiveLayout`.
- `Package.SavedArchive`, the archive written at src/IxMilia.ThreeMf/ThreeMfFile.cs:50-66, is stated by `PackageProperties.SavedArchiveLayout` and `PackageProperties.SavedModelPathResolves`.

## Left out

- Zip mechanics: compression, archive modes, `leaveOpen` and the disposal of streams and entries. These are library plumbing. An archive is its sequence of entries, and `Save` returns a new `ZipArchive` object instead of writing to a stream.
- XML text: the UTF-8 writer settings with two-space indentation, `XDocument.Load` and `WriteTo`. In the model, an entry holds its document's root element. Text, comments and other non-element nodes are not represented, and the failure of malformed XML to parse is not modelled. Writing an entry and reading it back is taken to give back the same tree. `LoadAfterSave` and `SaveLoadRoundTrip` rely on this. In the real program, `XDocument.Load` hands `LoadXml` a re-parsed root, which also carries namespace-declaration attributes (`xmlns=...`) that the written tree did not hold.
- The model itself: `ThreeMfModel.ToXElement`, `ThreeMfModel.LoadXml` and `new ThreeMfModel()` are supplied as `ModelOps` parameters. The serialiser is treated as total, so exceptions raised inside `ToXElement` are not modelled.
- ThreeMf.ThreeMfFile.Save: a one-element `Models` list holding `null` makes the source write the default model. The model's type is the abstract parameter `M`, which has no null value, so that case is not represented.
- Package.StripLeadingSlash: .NET's `StartsWith(string)` is culture-sensitive. The model tests the first character ordinally, so ignorable Unicode characters before the `/` are not modelled.
- Zip.GetEntry: an archive that repeats an entry name resolves to the first such entry. `Save` never writes duplicate names.
- Failures to open the archive, which the source lets propagate from the zip library, are not modelled.
