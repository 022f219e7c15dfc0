/** Selection of the workspace (content stream) a request renders. */
module ContentStream {
  import opened Wrappers
  import opened Dimensions

  /**
   * The workspace of a request: the one a well-formed context path names, and
   * "live" for the empty path, for any path that is not a context path and for
   * a context path the grammar rejects (the exception is swallowed).
   */
  function DetectContentStream(requestPath: string, c: Collaborators): (r: string)
    ensures requestPath == "" ==> r == LiveWorkspace
    ensures !c.isContextPath(requestPath) ==> r == LiveWorkspace
    ensures c.explodeContextPath(requestPath).Failure? ==> r == LiveWorkspace
    ensures requestPath != "" && c.isContextPath(requestPath) && c.explodeContextPath(requestPath).Success? ==>
      r == c.explodeContextPath(requestPath).value.workspaceName
  {
    if requestPath != "" && c.isContextPath(requestPath) then
      match c.explodeContextPath(requestPath)
      case Success(parts) => parts.workspaceName
      case Failure(_) => LiveWorkspace
    else
      LiveWorkspace
  }

  /** A workspace other than "live" is only ever taken from a well-formed context path. */
  lemma NonLiveComesFromContextPath(requestPath: string, c: Collaborators)
    requires DetectContentStream(requestPath, c) != LiveWorkspace
    ensures requestPath != "" && c.isContextPath(requestPath)
    ensures c.explodeContextPath(requestPath).Success?
    ensures DetectContentStream(requestPath, c) == c.explodeContextPath(requestPath).value.workspaceName
  {
  }
}
