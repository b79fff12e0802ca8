/**
 The publish gate of the annotated gallery: it lists the users, writes a
 fingerprint of their names as an HTML comment at the head of the SVG, and
 skips the write when the previous SVG already holds that same comment.
 */
module Index {

  import opened Wrappers
  import Text
  import Json
  import Comments
  import opened Gallery

  /** The names of the users, in list order. */
  function NamesOf(users: seq<GalleryUser>): (r: seq<string>)
    ensures |r| == |users|
    ensures forall i | 0 <= i < |users| :: r[i] == users[i].name
  {
    if users == [] then [] else [users[0].name] + NamesOf(users[1..])
  }

  /** The name map `{ contributors, collaborators, bots }`. */
  function NameMapOf(users: Grouped): Json.NameMap
  {
    Json.NameMap(NamesOf(users.contributors), NamesOf(users.collaborators), NamesOf(users.bots))
  }

  /** The fingerprint comment. */
  function Annotation(m: Json.NameMap): (r: string)
  {
    "<!-- " + Json.Stringify(m) + " -->"
  }

  /** JavaScript truthiness of a string that may be `null`. */
  predicate Truthy(content: Option<string>)
  {
    content.Some? && content.value != ""
  }

  /** The skip test: the previous content is truthy and one of its comments is the annotation. */
  predicate ShouldSkip(previous: Option<string>, annotation: string)
    ensures ShouldSkip(previous, annotation) ==> Truthy(previous) && Comments.IsComment(annotation)
  {
    Truthy(previous) && annotation in Comments.Matches(previous.value)
  }

  /** No name holds `-->`. */
  predicate NamesNoClose(m: Json.NameMap)
  {
    && (forall n | n in m.contributors :: Comments.NoClose(n))
    && (forall n | n in m.collaborators :: Comments.NoClose(n))
    && (forall n | n in m.bots :: Comments.NoClose(n))
  }

  /** No name holds `-->`, which would end the comment early, or a character the comment body refuses. */
  predicate Clean(m: Json.NameMap)
  {
    NamesNoClose(m) && Json.NamesAvoid(m, Comments.LineSeparator) && Json.NamesAvoid(m, Comments.ParagraphSeparator)
  }

  /** The previous content: the local file, or the decoded file of the repository if there is one. */
  function Previous(options: GateOptions, local: Option<string>, remote: Option<FileResponse>, env: Env): Option<string>
  {
    if options.noCommit then local
    else if remote.Some? then Some(env.decode(remote.value.content)) else None
  }

  /** The text handed to the minifier: the annotation, a newline, then the rendered SVG. */
  function Page(options: GateOptions, users: Grouped, env: Env): (r: string)
    ensures var a := Annotation(NameMapOf(users));
            |a| < |r| && r[..|a|] == a && r[|a|] == '\n'
            && r[|a| + 1..] == env.renderSvg(options.svgTemplate, SvgView(options, users, env))
  {
    var a := Annotation(NameMapOf(users));
    var svg := env.renderSvg(options.svgTemplate, SvgView(options, users, env));
    Text.JoinTwo(a, '\n', svg);
    a + "\n" + svg
  }

  const SkipMessage := "No updated required, content not changed."

  /** What a run ends in: the local file could not be read, the write was skipped, or a write and its report. */
  datatype Outcome =
    | Failed
    | Skipped(message: string)
    | Written(request: WriteRequest, report: string)

  /**
   One run of the gate. `local` is the local file when it could be read,
   `remote` the repository's file when it exists, and `context` the
   repository the workflow runs in.
   */
  method Run(options: GateOptions, context: RepoRef, listUsers: RepoRef -> Grouped,
             local: Option<string>, remote: Option<FileResponse>, env: Env)
    returns (outcome: Outcome)
    ensures outcome.Failed? <==> options.noCommit && local.None?
    ensures outcome.Skipped? <==>
      !outcome.Failed? && ShouldSkip(Previous(options, local, remote, env), Annotation(NameMapOf(UsersOf(options, context, listUsers))))
    ensures !Truthy(Previous(options, local, remote, env)) ==> !outcome.Skipped?
    ensures outcome.Skipped? ==> outcome.message == SkipMessage
    ensures outcome.Written? && options.noCommit ==>
      outcome.request == LocalWrite(options.svgPath, env.minify(Page(options, UsersOf(options, context, listUsers), env)))
    ensures outcome.Written? && !options.noCommit ==>
      outcome.request == RemoteWrite(context.owner, context.repo, options.svgPath,
        env.encode(env.minify(Page(options, UsersOf(options, context, listUsers), env))), options.commitMessage,
        if remote.Some? then Some(remote.value.sha) else None)
    ensures outcome.Written? ==>
      outcome.report == (if Truthy(Previous(options, local, remote, env)) then "Updated" else "Generated")
        + " : \"" + options.svgPath + "\""
  {
    var target := ResolveRepository(options.repo, context);
    var users := listUsers(target);
    var annotation := Annotation(NameMapOf(users));
    var preContent: Option<string>;
    var preResponse: Option<FileResponse> := None;
    if options.noCommit {
      if local.None? {
        return Failed;
      }
      preContent := local;
    } else {
      preResponse := remote;
      preContent := if preResponse.Some? then Some(env.decode(preResponse.value.content)) else None;
    }
    if preContent.Some? && preContent.value != "" {
      var matches := Comments.Matches(preContent.value);
      if annotation in matches {
        return Skipped(SkipMessage);
      }
    }
    var content := env.minify(Page(options, users, env));
    var request: WriteRequest;
    if options.noCommit {
      request := LocalWrite(options.svgPath, content);
    } else {
      var sha := if preResponse.Some? then Some(preResponse.value.sha) else None;
      request := RemoteWrite(context.owner, context.repo, options.svgPath, env.encode(content), options.commitMessage, sha);
    }
    var verb := if preContent.Some? && preContent.value != "" then "Updated" else "Generated";
    outcome := Written(request, verb + " : \"" + options.svgPath + "\"");
  }

  // ---------------------------------------------------------------------------
  // The JSON text holds `-->` only where a name does

  /** An escape starts with `-` or `>` only for that character itself, and only `-` escapes to a text with `-`. */
  lemma EscapeCharDashes(c: char)
    ensures (Json.EscapeChar(c)[0] == '-' <==> c == '-') && (Json.EscapeChar(c)[0] == '>' <==> c == '>')
    ensures c == '-' ==> Json.EscapeChar(c) == "-"
    ensures c != '-' ==> '-' !in Json.EscapeChar(c)
  {
    if c < ' ' {
      assert forall k | 0 <= k < 16 :: Json.HexDigits[k] != '-';
    }
  }

  lemma EscapeHead(s: string)
    requires s != []
    ensures Json.Escape(s) != [] && Json.Escape(s)[0] == Json.EscapeChar(s[0])[0]
  {
  }

  lemma NoCloseTail(s: string)
    requires s != [] && Comments.NoClose(s)
    ensures Comments.NoClose(s[1..])
  {
    assert forall j | 0 <= j < |s| - 1 :: Comments.ClosesAt(s[1..], j) == Comments.ClosesAt(s, j + 1);
  }

  /** Escaping a string without `-->` makes none. */
  lemma {:induction false} EscapeNoClose(s: string)
    requires Comments.NoClose(s)
    ensures Comments.NoClose(Json.Escape(s))
    decreases |s|
  {
    if s != [] {
      var head := Json.EscapeChar(s[0]);
      var e := Json.Escape(s[1..]);
      NoCloseTail(s);
      EscapeNoClose(s[1..]);
      EscapeCharDashes(s[0]);
      if s[0] != '-' {
        Comments.NoDashNoClose(head);
        Comments.NoCloseConcat(head, e);
      } else {
        if |e| >= 2 && e[0] == '-' {
          EscapeHead(s[1..]);
          EscapeCharDashes(s[1]);
          assert s[1..][1..] == s[2..];
          if |s| > 2 {
            EscapeHead(s[2..]);
            EscapeCharDashes(s[2]);
            assert e[1] == Json.Escape(s[2..])[0];
            assert !Comments.ClosesAt(s, 0);
          }
        }
        Comments.NoCloseDash(e);
      }
    }
  }

  /** A string literal of a name without `-->` holds none. */
  lemma QuoteNoClose(s: string)
    requires Comments.NoClose(s)
    ensures Comments.NoClose(Json.Quote(s))
  {
    var e := Json.Escape(s);
    EscapeNoClose(s);
    Comments.NoDashNoClose("\"");
    Comments.NoCloseConcat("\"", e);
    Comments.NoCloseConcat("\"" + e, "\"");
  }

  lemma {:induction false} QuotedNoClose(names: seq<string>)
    requires forall n | n in names :: Comments.NoClose(n)
    ensures forall q | q in Json.Quoted(names) :: Comments.NoClose(q)
    decreases |names|
  {
    if names != [] {
      QuoteNoClose(names[0]);
      QuotedNoClose(names[1..]);
    }
  }

  /** Joining parts without `-->` by a separator other than `-` and `>` makes none. */
  lemma {:induction false} JoinNoClose(parts: seq<string>, sep: char)
    requires sep != '-' && sep != '>'
    requires forall p | p in parts :: Comments.NoClose(p)
    ensures Comments.NoClose(Text.Join(parts, sep))
    decreases |parts|
  {
    if |parts| > 1 {
      JoinNoClose(parts[1..], sep);
      Comments.NoDashNoClose([sep]);
      Comments.NoCloseConcat(parts[0], [sep]);
      Comments.NoCloseConcat(parts[0] + [sep], Text.Join(parts[1..], sep));
    }
  }

  lemma StringListNoClose(names: seq<string>)
    requires forall n | n in names :: Comments.NoClose(n)
    ensures Comments.NoClose(Json.StringList(names))
    ensures Json.StringList(names)[|Json.StringList(names)| - 1] == ']'
  {
    var j := Text.Join(Json.Quoted(names), ',');
    QuotedNoClose(names);
    JoinNoClose(Json.Quoted(names), ',');
    Comments.NoDashNoClose("[");
    Comments.NoDashNoClose("]");
    Comments.NoCloseConcat("[", j);
    Comments.NoCloseConcat("[" + j, "]");
  }

  /** A piece of the JSON text that starts with a key: a key, then a list and what follows. */
  lemma KeyListNoClose(key: string, names: seq<string>, rest: string)
    requires '-' !in key && key != [] && key[|key| - 1] == ':'
    requires forall n | n in names :: Comments.NoClose(n)
    requires Comments.NoClose(rest)
    ensures Comments.NoClose(key + (Json.StringList(names) + rest))
  {
    var l := Json.StringList(names);
    StringListNoClose(names);
    Comments.NoCloseConcat(l, rest);
    Comments.NoDashNoClose(key);
    Comments.NoCloseConcat(key, l + rest);
  }

  /** The JSON text of names without `-->` holds none. */
  lemma StringifyNoClose(m: Json.NameMap)
    requires NamesNoClose(m)
    ensures Comments.NoClose(Json.Stringify(m))
  {
    Comments.NoDashNoClose("}");
    KeyListNoClose(Json.BotsKey, m.bots, "}");
    var t3 := Json.BotsKey + (Json.StringList(m.bots) + "}");
    KeyListNoClose(Json.CollaboratorsKey, m.collaborators, t3);
    var t1 := Json.CollaboratorsKey + (Json.StringList(m.collaborators) + t3);
    KeyListNoClose(Json.ContributorsKey, m.contributors, t1);
  }

  /**
   The annotation is `<!-- `, the JSON text of the name map, then ` -->`;
   read as a comment, its body is the JSON text between two spaces.
   */
  lemma AnnotationParts(m: Json.NameMap)
    ensures var a := Annotation(m);
            && |a| == |Json.Stringify(m)| + 9
            && a[..5] == "<!-- " && a[5..|a| - 4] == Json.Stringify(m) && a[|a| - 4..] == " -->"
  {
  }

  lemma AnnotationAsComment(m: Json.NameMap)
    ensures Annotation(m) == "<!--" + (" " + Json.Stringify(m) + " ") + "-->"
  {
  }

  /** Spaces around a text without `-->` make none. */
  lemma SpacedNoClose(s: string)
    requires Comments.NoClose(s)
    ensures Comments.NoClose(" " + s + " ")
  {
    Comments.NoDashNoClose(" ");
    Comments.NoCloseConcat(" ", s);
    Comments.NoCloseConcat(" " + s, " ");
  }

  /** With clean names the annotation is one whole comment the scanner can find. */
  lemma AnnotationIsComment(m: Json.NameMap)
    requires Clean(m)
    ensures Comments.IsComment(Annotation(m))
  {
    var s := Json.Stringify(m);
    StringifyNoClose(m);
    SpacedNoClose(s);
    Json.StringifyAvoids(m, Comments.LineSeparator);
    Json.StringifyAvoids(m, Comments.ParagraphSeparator);
    AnnotationAsComment(m);
    Comments.CommentOfBody(" " + s + " ");
  }

  /** An annotation holding U+2028 or U+2029 is no comment the scanner can match. */
  lemma SeparatorNoComment(m: Json.NameMap, c: char)
    requires c == Comments.LineSeparator || c == Comments.ParagraphSeparator
    requires c in Json.Stringify(m)
    ensures !Comments.IsComment(Annotation(m))
  {
    var a := Annotation(m);
    var s := Json.Stringify(m);
    AnnotationParts(m);
    var j :| 0 <= j < |s| && s[j] == c;
    assert a[5 + j] == a[5..|a| - 4][j];
    assert 4 <= 5 + j < |a| - 3 && !Comments.BodyChar(a[5 + j]);
  }

  /**
   A name holding U+2028 or U+2029 makes the annotation unmatchable, so the
   gate never skips: it rewrites the file on every run.
   */
  lemma NeverSkipsWithSeparator(m: Json.NameMap, n: string, previous: Option<string>)
    requires n in m.contributors || n in m.collaborators || n in m.bots
    requires Comments.LineSeparator in n || Comments.ParagraphSeparator in n
    ensures !ShouldSkip(previous, Annotation(m))
  {
    var c := if Comments.LineSeparator in n then Comments.LineSeparator else Comments.ParagraphSeparator;
    Json.StringifyKeeps(m, n, c);
    SeparatorNoComment(m, c);
  }

  /** Different name maps give different annotations. */
  lemma AnnotationInjective(m1: Json.NameMap, m2: Json.NameMap)
    requires Annotation(m1) == Annotation(m2)
    ensures m1 == m2
  {
    AnnotationParts(m1);
    AnnotationParts(m2);
    Json.StringifyInjective(m1, m2);
  }

  /**
   Idempotence: content that begins with the annotation the gate would write
   is skipped.
   */
  lemma SkipsOwnOutput(m: Json.NameMap, rest: string)
    requires Clean(m)
    ensures ShouldSkip(Some(Annotation(m) + rest), Annotation(m))
  {
    AnnotationIsComment(m);
    Comments.CommentFirst(Annotation(m), rest);
  }

  /**
   Content that begins with the annotation of `m1`, and holds no other comment
   equal to the annotation of `m2`, is skipped exactly when the names are the
   same.
   */
  lemma SkipsExactlyOnSameNames(m1: Json.NameMap, m2: Json.NameMap, rest: string)
    requires Clean(m1)
    requires Annotation(m2) !in Comments.Matches(rest)
    ensures ShouldSkip(Some(Annotation(m1) + rest), Annotation(m2)) <==> m1 == m2
  {
    AnnotationIsComment(m1);
    Comments.CommentFirst(Annotation(m1), rest);
    if Annotation(m1) == Annotation(m2) {
      AnnotationInjective(m1, m2);
    }
  }

  /** Content whose head is the annotation of clean names is skipped. */
  lemma SkipsContentWithAnnotation(m: Json.NameMap, c: string)
    requires Clean(m)
    requires |Annotation(m)| <= |c| && c[..|Annotation(m)|] == Annotation(m)
    ensures ShouldSkip(Some(c), Annotation(m))
  {
    var a := Annotation(m);
    assert c == a + c[|a|..];
    SkipsOwnOutput(m, c[|a|..]);
  }

  /**
   Running the gate again, with the same users, on what it wrote meets the
   skip condition of `Run`: the local file now holds the minified page, or
   the repository's file holds its encoding. This holds provided the minifier
   keeps the annotation at the head of the page and, on the remote path,
   decoding undoes encoding.
   */
  lemma Rerun(options: GateOptions, context: RepoRef, listUsers: RepoRef -> Grouped,
              local: Option<string>, remote: Option<FileResponse>, env: Env, newSha: string)
    requires Clean(NameMapOf(UsersOf(options, context, listUsers)))
    requires var users := UsersOf(options, context, listUsers);
             var a := Annotation(NameMapOf(users));
             var c := env.minify(Page(options, users, env));
             |a| <= |c| && c[..|a|] == a
    requires env.decode(env.encode(env.minify(Page(options, UsersOf(options, context, listUsers), env))))
             == env.minify(Page(options, UsersOf(options, context, listUsers), env))
    ensures var users := UsersOf(options, context, listUsers);
            var a := Annotation(NameMapOf(users));
            var c := env.minify(Page(options, users, env));
            && (options.noCommit ==> ShouldSkip(Previous(options, Some(c), remote, env), a))
            && (!options.noCommit ==> ShouldSkip(Previous(options, local, Some(FileResponse(env.encode(c), newSha)), env), a))
  {
    var users := UsersOf(options, context, listUsers);
    var c := env.minify(Page(options, users, env));
    SkipsContentWithAnnotation(NameMapOf(users), c);
  }
}
