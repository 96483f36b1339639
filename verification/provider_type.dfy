/**
 * `ProxyProviderTypeFactory.createProviderType`: which proxy emitter a
 * configuration selects, and where its templates are looked up.
 */
module ProviderTypes {
  import opened Wrappers

  /** The configuration fields the choice reads. */
  datatype ProviderConfiguration = ProviderConfiguration(
    useQjniTemplates: bool,
    useTemplates: bool,
    templateDirectory: Option<string>,
    templateBuildDirectory: Option<string>)

  datatype ProxyProviderType =
    | Default
    | Template(pathOfTemplate: string, pathOfTemplatesBuildFolder: Option<string>)
    | QTemplate(pathOfTemplate: string, pathOfTemplatesBuildFolder: Option<string>)

  const TemplateSubdirectory: string := "/compiler/src/main/resources/jte"

  /** The template path: the configured directory, else under `userDir` (the `user.dir` property). */
  function TemplatePath(c: ProviderConfiguration, userDir: string): string
  {
    if c.templateDirectory.Some? then c.templateDirectory.value else userDir + TemplateSubdirectory
  }

  function CreateProviderType(c: ProviderConfiguration, userDir: string): (r: ProxyProviderType)
    ensures r.QTemplate? <==> c.useQjniTemplates
    ensures r.Template? <==> !c.useQjniTemplates && c.useTemplates
    ensures r.Default? <==> !c.useQjniTemplates && !c.useTemplates
    ensures !r.Default? ==> r.pathOfTemplatesBuildFolder == c.templateBuildDirectory
    ensures !r.Default? && c.templateDirectory.Some? ==> r.pathOfTemplate == c.templateDirectory.value
    ensures !r.Default? && c.templateDirectory.None? ==> r.pathOfTemplate == userDir + TemplateSubdirectory
  {
    if c.useQjniTemplates then QTemplate(TemplatePath(c, userDir), c.templateBuildDirectory)
    else if c.useTemplates then Template(TemplatePath(c, userDir), c.templateBuildDirectory)
    else Default
  }

  /** The Qt flag overrides the plain template flag. */
  lemma QjniOverridesTemplates(c: ProviderConfiguration, userDir: string)
    requires c.useQjniTemplates
    ensures CreateProviderType(c, userDir) == CreateProviderType(c.(useTemplates := !c.useTemplates), userDir)
  {
  }
}
