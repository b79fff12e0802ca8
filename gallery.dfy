/**
 What the two publish gates share: the grouped user lists they receive, the
 options they read, the `owner/repo` rule, the per-section joins, and the
 libraries they call (Mustache, the HTML minifier, base64), which are taken
 as functions the caller supplies.
 */
module Gallery {

  import opened Wrappers
  import Text

  /** A laid-out user of the grouped result: name, avatar, profile url, kind and its box. */
  datatype GalleryUser = GalleryUser(
    name: string, avatar: string, url: Option<string>, kind: string,
    x: int, y: int, width: int, height: int)

  /** The grouped user lists the gates render. */
  datatype Grouped = Grouped(contributors: seq<GalleryUser>, bots: seq<GalleryUser>, collaborators: seq<GalleryUser>)

  /** The inputs the gates read. */
  datatype GateOptions = GateOptions(
    repo: string, svgPath: string, svgTemplate: string, itemTemplate: string,
    noCommit: bool, commitMessage: string, svgWidth: int)

  datatype RepoRef = RepoRef(owner: string, repo: string)

  /** A file fetched from the repository: its base64 content and its blob sha. */
  datatype FileResponse = FileResponse(content: string, sha: string)

  /** The values the SVG template is rendered with. */
  datatype View = View(
    contributors: string, bots: string, collaborators: string, width: int,
    contributorsHeight: int, botsHeight: int, collaboratorsHeight: int)

  /** A write the gate asks for: to the local file, or a commit through the contents API. */
  datatype WriteRequest =
    | LocalWrite(path: string, data: string)
    | RemoteWrite(owner: string, repo: string, path: string, content: string, message: string, sha: Option<string>)

  /**
   The libraries the gates call: Mustache rendering of an item and of the SVG,
   the section height, the minifier, and base64 decoding and encoding.
   */
  datatype Env = Env(
    renderItem: (string, GalleryUser) -> string,
    renderSvg: (string, View) -> string,
    sectionHeight: (int, GateOptions) -> int,
    minify: string -> string,
    decode: string -> string,
    encode: string -> string)

  /**
   The repository the users are listed from: `input` when it splits on `/`
   into exactly two parts (so holds exactly one `/`), both parts even when
   empty; otherwise the repository the workflow runs in.
   */
  function ResolveRepository(input: string, context: RepoRef): (r: RepoRef)
    ensures multiset(input)['/'] == 1 ==> '/' !in r.owner && '/' !in r.repo && r.owner + "/" + r.repo == input
    ensures multiset(input)['/'] != 1 ==> r == context
  {
    var parts := Text.Split(input, '/');
    Text.SplitCount(input, '/');
    Text.JoinSplit(input, '/');
    if |parts| == 2 then
      assert parts[0] in parts && parts[1] in parts;
      RepoRef(parts[0], parts[1])
    else context
  }

  /** The grouped users listed for the repository the options name. */
  function UsersOf(options: GateOptions, context: RepoRef, listUsers: RepoRef -> Grouped): Grouped
  {
    listUsers(ResolveRepository(options.repo, context))
  }

  /** `"/"` names the repository with empty owner and name. */
  lemma ResolveSlash(context: RepoRef)
    ensures ResolveRepository("/", context) == RepoRef("", "")
  {
    assert multiset("/")['/'] == 1;
  }

  /** Each user rendered with the item template, in list order. */
  function Rendered(users: seq<GalleryUser>, template: string, render: (string, GalleryUser) -> string): (r: seq<string>)
    ensures |r| == |users|
    ensures forall i | 0 <= i < |users| :: r[i] == render(template, users[i])
  {
    if users == [] then [] else [render(template, users[0])] + Rendered(users[1..], template, render)
  }

  /** A section: the rendered items joined by newlines. */
  function Section(users: seq<GalleryUser>, template: string, render: (string, GalleryUser) -> string): (r: string)
    ensures users == [] ==> r == ""
    ensures |users| == 1 ==> r == render(template, users[0])
    ensures |users| > 1 ==> |r| >= |users| - 1 && multiset(r)['\n'] >= |users| - 1
  {
    Text.JoinLength(Rendered(users, template, render), '\n');
    Text.JoinSeparatorsAtLeast(Rendered(users, template, render), '\n');
    Text.Join(Rendered(users, template, render), '\n')
  }

  /**
   A section of no users is empty; otherwise, when no rendered item holds a
   newline, it holds one newline fewer than there are users and splitting it
   on newlines gives the rendered items back in list order.
   */
  lemma SectionItems(users: seq<GalleryUser>, template: string, render: (string, GalleryUser) -> string)
    requires forall u | u in users :: '\n' !in render(template, u)
    ensures users == [] ==> Section(users, template, render) == ""
    ensures multiset(Section(users, template, render))['\n'] == if users == [] then 0 else |users| - 1
    ensures users != [] ==> Text.Split(Section(users, template, render), '\n') == Rendered(users, template, render)
  {
    var items := Rendered(users, template, render);
    assert forall p | p in items :: '\n' !in p by {
      forall p | p in items ensures '\n' !in p {
        var i :| 0 <= i < |items| && items[i] == p;
        assert users[i] in users;
      }
    }
    Text.JoinSeparators(items, '\n');
    if users != [] {
      Text.SplitJoin(items, '\n');
    }
  }

  /**
   The view the SVG template is rendered with: the three sections rendered
   with the item template, the width input, and each section's height from
   its number of users.
   */
  function SvgView(options: GateOptions, users: Grouped, env: Env): (v: View)
    ensures v.contributors == Section(users.contributors, options.itemTemplate, env.renderItem)
    ensures v.bots == Section(users.bots, options.itemTemplate, env.renderItem)
    ensures v.collaborators == Section(users.collaborators, options.itemTemplate, env.renderItem)
    ensures v.width == options.svgWidth
    ensures v.contributorsHeight == env.sectionHeight(|users.contributors|, options)
    ensures v.botsHeight == env.sectionHeight(|users.bots|, options)
    ensures v.collaboratorsHeight == env.sectionHeight(|users.collaborators|, options)
  {
    View(
      Section(users.contributors, options.itemTemplate, env.renderItem),
      Section(users.bots, options.itemTemplate, env.renderItem),
      Section(users.collaborators, options.itemTemplate, env.renderItem),
      options.svgWidth,
      env.sectionHeight(|users.contributors|, options),
      env.sectionHeight(|users.bots|, options),
      env.sectionHeight(|users.collaborators|, options))
  }

  /** No rendered item of the users holds a newline. */
  predicate FlatItems(users: seq<GalleryUser>, template: string, render: (string, GalleryUser) -> string)
  {
    forall u | u in users :: '\n' !in render(template, u)
  }

  /**
   Each section of the view is its users' rendered items joined by newlines,
   in list order: when no item of a group holds a newline, its section holds
   one newline fewer than the group has users and splits back into the items.
   */
  lemma SvgViewSections(options: GateOptions, users: Grouped, env: Env)
    ensures var v := SvgView(options, users, env);
            var t := options.itemTemplate;
            FlatItems(users.contributors, t, env.renderItem) ==>
              && multiset(v.contributors)['\n'] == (if users.contributors == [] then 0 else |users.contributors| - 1)
              && (users.contributors != [] ==> Text.Split(v.contributors, '\n') == Rendered(users.contributors, t, env.renderItem))
    ensures var v := SvgView(options, users, env);
            var t := options.itemTemplate;
            FlatItems(users.bots, t, env.renderItem) ==>
              && multiset(v.bots)['\n'] == (if users.bots == [] then 0 else |users.bots| - 1)
              && (users.bots != [] ==> Text.Split(v.bots, '\n') == Rendered(users.bots, t, env.renderItem))
    ensures var v := SvgView(options, users, env);
            var t := options.itemTemplate;
            FlatItems(users.collaborators, t, env.renderItem) ==>
              && multiset(v.collaborators)['\n'] == (if users.collaborators == [] then 0 else |users.collaborators| - 1)
              && (users.collaborators != [] ==> Text.Split(v.collaborators, '\n') == Rendered(users.collaborators, t, env.renderItem))
  {
    var t := options.itemTemplate;
    if FlatItems(users.contributors, t, env.renderItem) {
      SectionItems(users.contributors, t, env.renderItem);
    }
    if FlatItems(users.bots, t, env.renderItem) {
      SectionItems(users.bots, t, env.renderItem);
    }
    if FlatItems(users.collaborators, t, env.renderItem) {
      SectionItems(users.collaborators, t, env.renderItem);
    }
  }
}
