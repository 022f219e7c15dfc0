/** The properties from which the rendering context is created. */
module ContextAssembly {
  import opened Dimensions

  /** `workspaceName`, the two visibility flags and the dimension coordinate. */
  datatype ContextProperties = ContextProperties(
    workspaceName: string,
    invisibleContentShown: bool,
    inaccessibleContentShown: bool,
    dimensions: map<string, seq<string>>)

  /** Workspace identity alone decides whether unpublished content is shown. */
  predicate VisibilityFollowsWorkspace(p: ContextProperties) {
    p.invisibleContentShown == p.inaccessibleContentShown == (p.workspaceName != LiveWorkspace)
  }

  /**
   * The context properties for a workspace and a coordinate: hidden and
   * inaccessible content are shown outside "live" only, and the coordinate is
   * passed on unchanged.
   */
  function BuildContextFromWorkspaceNameAndDimensions(workspaceName: string, dimensions: map<string, seq<string>>): (p: ContextProperties)
    ensures VisibilityFollowsWorkspace(p)
    ensures p.workspaceName == workspaceName && p.dimensions == dimensions
  {
    ContextProperties(workspaceName, workspaceName != LiveWorkspace, workspaceName != LiveWorkspace, dimensions)
  }
}
