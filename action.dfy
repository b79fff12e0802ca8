/**
 The raw-diff publish gate: it renders the SVG and commits it only when the
 file in the repository, decoded, differs from it.
 */
module Action {

  import opened Wrappers
  import opened Gallery

  /** What a run ends in: no write, or a commit and the message it logs. */
  datatype Outcome =
    | Unchanged
    | Published(request: WriteRequest, message: string)

  /**
   One run of the gate: `previous` is the repository's file when it exists and
   `context` the repository the workflow runs in.
   */
  function Run(options: GateOptions, context: RepoRef, listUsers: RepoRef -> Grouped,
               previous: Option<FileResponse>, env: Env): (r: Outcome)
    ensures var content := env.renderSvg(options.svgTemplate, SvgView(options, UsersOf(options, context, listUsers), env));
            r.Published? <==> previous.None? || env.decode(previous.value.content) != content
    ensures r.Published? ==>
      && r.request.RemoteWrite?
      && r.request.owner == context.owner && r.request.repo == context.repo
      && r.request.path == options.svgPath
      && r.request.content == env.encode(env.renderSvg(options.svgTemplate, SvgView(options, UsersOf(options, context, listUsers), env)))
      && r.request.message == options.commitMessage
      && (r.request.sha.Some? <==> previous.Some?)
      && (previous.Some? ==> r.request.sha.value == previous.value.sha)
      && r.message == "Generated: \"" + options.svgPath + "\""
  {
    var users := listUsers(ResolveRepository(options.repo, context));
    var content := env.renderSvg(options.svgTemplate, SvgView(options, users, env));
    var preContent := if previous.Some? then Some(env.decode(previous.value.content)) else None;
    if preContent != Some(content) then
      var sha := if previous.Some? then Some(previous.value.sha) else None;
      Published(
        RemoteWrite(context.owner, context.repo, options.svgPath, env.encode(content), options.commitMessage, sha),
        "Generated: \"" + options.svgPath + "\"")
    else Unchanged
  }

  /**
   Running again on the file a run committed, with the same users, writes
   nothing, provided decoding undoes encoding.
   */
  lemma RerunUnchanged(options: GateOptions, context: RepoRef, listUsers: RepoRef -> Grouped,
                       previous: Option<FileResponse>, env: Env, newSha: string)
    requires var content := env.renderSvg(options.svgTemplate, SvgView(options, UsersOf(options, context, listUsers), env));
             env.decode(env.encode(content)) == content
    requires Run(options, context, listUsers, previous, env).Published?
    ensures var written := Run(options, context, listUsers, previous, env).request.content;
            Run(options, context, listUsers, Some(FileResponse(written, newSha)), env) == Unchanged
  {
  }
}
