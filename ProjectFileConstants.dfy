/** The MSBuild element and attribute names the project tools work with.
    They are compared as plain strings; the MSBuild namespace they all share
    is a fixed prefix and is not modelled. */
module ProjectFileConstants {
  const AdditionalFilesElementName: string := "AdditionalFiles"
  const AnalyzerElementName: string := "Analyzer"
  const CompileElementName: string := "Compile"
  const DefineConstantsElementName: string := "DefineConstants"
  const HintPathElementName: string := "HintPath"
  const IncludeAssetsElementName: string := "IncludeAssets"
  const ItemGroupElementName: string := "ItemGroup"
  const PackageReferenceElementName: string := "PackageReference"
  const PrivateAssetsElementName: string := "PrivateAssets"
  const ProjectReferenceElementName: string := "ProjectReference"
  const PropertyGroupElementName: string := "PropertyGroup"
  const ReferenceElementName: string := "Reference"
  const TargetElementName: string := "Target"
  const VersionElementName: string := "Version"

  const BeforeTargetsAttributeName: string := "BeforeTargets"
  const IncludeAttributeName: string := "Include"
  const NameAttributeName: string := "Name"
  const RemoveAttributeName: string := "Remove"

  const DefineConstantsSeparator: char := ';'

  /** The six item kinds the modifier collects into lists of their own, in
      the order it collects and re-emits them. */
  const ItemKinds: seq<string> := [CompileElementName, ReferenceElementName, ProjectReferenceElementName,
                                   PackageReferenceElementName, AnalyzerElementName, AdditionalFilesElementName]
}
