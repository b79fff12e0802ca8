# contributors-list, modelled in Dafny

A model of the core of the `contributors-list` GitHub Action. The action lists
a repository's contributors, bots and collaborators, renders them into an SVG
gallery and publishes it. The model covers:

- the input defaulting of `getInputs` and the user-list normaliser `getUsers`
  (`src/util.ts`). The normaliser drops `'Bot'` records unless bots are
  included, optionally sorts by contributions, descending and stably, then
  pushes one entry per contributor and, optionally, one per collaborator.
  This is imperative code: the sort reorders the API's own array when bots
  are included, and the entries are pushed in two loops;
- the annotated publish gate of `src/index.ts`. It takes `owner/repo` from the
  `repo` input, writes the name lists as JSON inside an HTML comment, and skips
  the write when a lazily matched `<!-- … -->` comment of the previous content
  equals that annotation. Otherwise it writes and reports "Updated" or
  "Generated";
- the raw-diff publish gate of `src/action.ts`, which commits only when the
  decoded previous file differs from the rendered SVG.

The modules are:

| file | module | what |
|---|---|---|
| `wrappers.dfy` | `Wrappers` | `Option` |
| `text.dfy` | `Text` | `String.prototype.split` and `Array.prototype.join` on one character |
| `numbers.dfy` | `Numbers` | `parseInt(s, 10)`, including its whitespace, sign and `NaN` rules |
| `util.dfy` | `Util` | `getInputs`, the bot filter, the stable sort (a specification function and an in-place insertion sort on an array), and `getUsers` |
| `json.dfy` | `Json` | `JSON.stringify` of the name map, and a reader for it |
| `comments.dfy` | `Comments` | the matches of `/<!--(.\|[\r\n])*?-->/g` |
| `gallery.dfy` | `Gallery` | the grouped users, options and libraries both gates use; the `owner/repo` rule; the sections and the SVG view |
| `index.dfy` | `Index` | the annotated gate `run` |
| `action.dfy` | `Action` | the raw-diff gate `Action.run` |

The gates receive the grouped `{ contributors, bots, collaborators }` lists
that `dist/util.d.ts:25-56` declares. They do not receive the flat list that
`src/util.ts` returns, because the two files disagree. The grouped lists come
from a caller-supplied function of the resolved repository, so the
`owner/repo` rule is observable. The options the gates read (`noCommit`,
`svgTemplate`, `itemTemplate`, `commitMessage`) are likewise only declared in
`dist/util.d.ts:5-22`, so they are a separate record, `Gallery.GateOptions`.

Three kinds of library call are functions in `Gallery.Env`, about which
nothing is assumed beyond what a lemma's `requires` states:

- Mustache rendering;
- the section height;
- the HTML minifier and base64.

The reports are those the code logs. The annotated gate logs
`Generated : "<path>"` or `Updated : "<path>"` (`src/index.ts:126`), and
"Updated" whenever the previous content is truthy. The raw-diff gate logs
`Generated: "<path>"` (`src/action.ts:66`). A skip logs
`No updated required, content not changed.` (`src/index.ts:63`).

## Model

| member | source | states |
|---|---|---|
| Numbers.ParseInt | src/util.ts:11-12 | a text with no decimal digit parses to `NaN` (`None`) |
| Numbers.ParseIntExact | src/util.ts:11-12 | after the leading white space and one optional `+` or `-`: the result is `NaN` exactly when nothing or a non-digit follows; otherwise it is the value of the longest digit run, negated after `-` |
| Numbers.ParseSignedExact | src/util.ts:11-12 | the same rule for text that starts after the white space |
| Numbers.ParseIntLetters | src/util.ts:11-12 | `"px64"` gives `NaN`: digits after a non-digit are not read |
| Numbers.ParseIntPlus | src/util.ts:11-12 | `"+64"` reads as 64 |
| Numbers.ParseIntLeadingZero | src/util.ts:11-12 | `"064"` reads as 64: radix 10, leading zeros ignored |
| Numbers.ParseIntDecimal | src/util.ts:11-12 | leading JavaScript white space is skipped and whatever follows the digit run is ignored: blanks, then the decimal digits of `n`, then nothing or text starting with a non-digit, parse to `n` |
| Numbers.ParseIntNegative | src/util.ts:11-12 | a leading `-` negates: blanks, `-`, the digits of `n`, then nothing or text starting with a non-digit, parse to `-n` |
| Numbers.ParseIntRoundTrip | src/util.ts:11-12 | the decimal text of `n` parses back to `n` |
| Util.GetInputs | src/util.ts:10-27 | `repo`, `svgName` and `svgPath` are never empty: an input is kept when non-empty and otherwise replaced by `'/'`, `'contributors'` or `'./'`; each flag is true exactly when the input is the text `"true"`; `collaboratorType` is passed through; `svgWidth` and `avatarSize` are the parsed number when `parseInt` succeeds and 768 and 64 when it gives `NaN` |
| Util.GetInputsNumbers | src/util.ts:11-25 | a width or avatar size written in decimal is read as that number; a text without digits (an unset input) gives 768 or 64 |
| Util.GetInputsAllUnset | src/util.ts:13-26 | with no input set, every field takes its default and the flags are false |
| Util.WithoutBots | src/util.ts:42 | the filtered list is no longer than the input, and every element it keeps comes from the input and is not typed `"Bot"` |
| Util.WithoutBotsAppend | src/util.ts:42 | filtering a concatenation concatenates the filtered parts, so kept records stay in API order |
| Util.WithoutBotsKeepsOthers | src/util.ts:42 | every record not typed exactly `"Bot"` survives as often as it occurs |
| Util.InsertPermutes | src/util.ts:45 | inserting a record into a sorted list adds exactly that record |
| Util.InsertKeepsSorted | src/util.ts:45 | inserting into a list in non-increasing order of contributions keeps it in that order |
| Util.SortByContributions | src/util.ts:44-46 | the sorted list is a permutation of the input in non-increasing order of contributions |
| Util.WithCount | src/util.ts:45 | the records with a given count, drawn from the list, all with that count |
| Util.SortIsStable | src/util.ts:45 | for every count, the records with that count appear in the sorted list in the same relative order as in the input |
| Util.SortIsUnique | src/util.ts:45 | a list in non-increasing order that keeps each count's records in input order is the sorted list, so a stable descending sort is fully determined |
| Util.InsertInPlace | src/util.ts:45 | one insertion step on the array: the prefix `a[..i+1]` becomes the sorted insertion of `a[i]` into the sorted `a[..i]`, and the rest of the array is unchanged |
| Util.SortInPlace | src/util.ts:45 | sorting the array in place leaves exactly the stable descending sort of its old contents |
| Util.ContributorEntries | src/util.ts:59-69 | one entry per contributor record, in order; each entry carries the record's count and is labelled `'bot'` exactly when the API type is the lower-case `"bot"` |
| Util.CollaboratorEntries | src/util.ts:81-88 | one entry per collaborator, in order, labelled `'collaborator'` with no count |
| Util.KeptContributors | src/util.ts:40-46 | every kept record comes from the API list; with bots included all are kept; otherwise none is typed `"Bot"` |
| Util.KeptContributorsSpec | src/util.ts:40-46 | with bots included every record is kept; otherwise none typed `"Bot"` is; unsorted the list is the filtered list in API order; sorted it is a permutation of it in non-increasing order with equal counts in API order |
| Util.UserList | src/util.ts:59-91 | the list has one entry per kept contributor plus, when collaborators are included, one per collaborator |
| Util.UserListShape | src/util.ts:59-91 | the output holds the kept contributors' entries first, then, when collaborators are included, one per collaborator; the length is their sum; names, avatars and urls are copied from login, avatar_url and html_url; a kept `"Bot"` record is labelled `'contributor'` |
| Util.SelectContributors | src/util.ts:40-46 | the contributors are the API's own array when bots are included, a fresh filtered array otherwise; they hold the kept list; the API array is reordered exactly when bots are included and sorting is on |
| Util.GetUsers | src/util.ts:29-92 | the pushed entries are the user list of the API records as they were on entry; the API's array is left sorted exactly when bots are included and sorting is on, and is unchanged otherwise |
| Text.Split | src/index.ts:17 | a split has at least one part and no part holds the separator |
| Text.SplitCount | src/index.ts:17-18 | a split has one part more than the string has separators |
| Text.JoinLength | src/index.ts:69-79 | a join is as long as its parts together plus one separator between each two neighbours |
| Text.JoinKeeps | src/index.ts:69-79 | every character of every part appears in the join |
| Text.JoinSplit | src/index.ts:17-19 | joining a split with its separator gives the string back |
| Text.SplitJoin | src/index.ts:69-79 | splitting a join of separator-free parts gives the parts back |
| Text.JoinSeparatorsAtLeast | src/index.ts:69-79 | whatever the parts hold, a join of n parts holds at least n-1 separators |
| Text.JoinSeparators | src/index.ts:69-79 | a join of separator-free parts holds one separator fewer than there are parts, and none for no parts |
| Text.JoinAvoids | src/index.ts:69-79 | a join holds only characters of its parts and the separator |
| Gallery.ResolveRepository | src/index.ts:17-19 | when the `repo` input holds exactly one `/`, owner and repo are the text before and after it, empty parts included; otherwise both come from the workflow's repository |
| Gallery.ResolveSlash | src/index.ts:17-19 | the default `'/'` names the repository with empty owner and name |
| Gallery.Rendered | src/index.ts:69-79 | one rendered item per user, the item template applied to that user, in list order |
| Gallery.Section | src/index.ts:69-79 | a section of no users is empty, of one user is that user's rendered item, and of n > 1 users holds at least n-1 newlines, one between each two items, so it is at least n-1 long |
| Gallery.SectionItems | src/index.ts:69-79 | a section of no users is `''`; with n users whose rendered items hold no newline it holds n-1 newlines and splits back into the items in list order (the same sections as `src/action.ts:24-34`) |
| Gallery.SvgViewSections | src/index.ts:69-110 | each section of the view passed to the SVG template is its group's rendered items joined by newlines, in list order: when no item of the group holds a newline, the section holds one newline fewer than the group has users (none for no users) and splits back into the items (the same view as `src/action.ts:24-50`) |
| Json.EscapeChar | src/index.ts:47 | a character from U+0020 up, other than `"` and `\`, is written as itself; any other is written as an escape that starts with a backslash |
| Json.Stringify | src/index.ts:47 | the JSON text of the name map is an object: it opens with `{` and closes with `}` |
| Json.ReadQuoted | src/index.ts:47 | a string literal's escaped body, then the closing quote, reads back as the string |
| Json.ReadStringify | src/index.ts:47 | the JSON text of the name map reads back as the map with nothing left over |
| Json.StringifyInjective | src/index.ts:47 | two name maps with the same JSON text are equal |
| Json.StringifyKeeps | src/index.ts:47 | a character that the writer copies as itself, held by some name, appears in the JSON text |
| Json.StringifyAvoids | src/index.ts:47 | a character that is no letter, digit or JSON punctuation appears in the JSON text only if some name holds it |
| Comments.CloseFrom | src/index.ts:60 | the lazy body scan stops at the first `-->` reachable through body characters, passing only U+2028/U+2029-free text without `-->` |
| Comments.CloseFromFinds | src/index.ts:60 | when only body characters and no `-->` precede a `-->`, the scan stops there |
| Comments.CloseFromNone | src/index.ts:60 | when the scan fails, every later `-->` lies beyond a character the body refuses |
| Comments.Matches | src/index.ts:60-61 | every match is a whole comment: `<!--`, a body free of U+2028/U+2029 in which no `-->` starts, then `-->` |
| Comments.NoCloseConcat | src/index.ts:60 | two texts without `-->` put together hold none when the seam cannot form one |
| Comments.CommentOfBody | src/index.ts:60 | `<!--`, a body without `-->`, U+2028 or U+2029, then `-->` is one comment |
| Comments.CommentFirst | src/index.ts:60-61 | a comment at the front of the content is its first match, and matching resumes right after it |
| Comments.NoOpenNoMatch | src/index.ts:61 | content without `<!--` has no match |
| Index.NamesOf | src/index.ts:21-25 | the name list holds each user's name, in list order |
| Index.ShouldSkip | src/index.ts:59-65 | a skip needs truthy previous content and an annotation that is itself a whole comment |
| Index.AnnotationParts | src/index.ts:47 | the annotation is `<!-- `, the JSON text of the name map, then ` -->` |
| Index.EscapeNoClose | src/index.ts:47 | escaping a name that holds no `-->` produces no `-->` |
| Index.StringifyNoClose | src/index.ts:47 | when no name holds `-->`, neither does the JSON text |
| Index.AnnotationIsComment | src/index.ts:47 | when no name holds `-->`, U+2028 or U+2029, the annotation is a single comment the scanner can match |
| Index.NeverSkipsWithSeparator | src/index.ts:59-65 | when some name holds U+2028 or U+2029, the annotation is no comment the scanner matches, so the run never skips, whatever the previous content |
| Index.Page | src/index.ts:112 | the page handed to the minifier is the annotation, a newline, then the SVG template rendered with the view |
| Index.AnnotationInjective | src/index.ts:47 | the annotation determines the name map: different names or orders give different annotations |
| Index.SkipsContentWithAnnotation | src/index.ts:59-65 | when no name holds `-->`, U+2028 or U+2029, content that begins with the annotation is skipped |
| Index.SkipsOwnOutput | src/index.ts:59-65 | when no name holds `-->`, U+2028 or U+2029, the annotation followed by anything is skipped (idempotence) |
| Index.SkipsExactlyOnSameNames | src/index.ts:59-65 | when no name of the earlier map holds `-->`, U+2028 or U+2029: content beginning with the earlier annotation, and holding no other comment equal to the current annotation, is skipped exactly when the current name map is the same |
| Index.Run | src/index.ts:9-130 | the one failure modelled is a local file that is requested and cannot be read, and the run fails exactly then; the run skips exactly when the previous content is truthy and one of its matched comments equals the annotation, so absent or empty content never skips; a write is the minified annotation, newline and rendered SVG, to the local path or, base64-encoded, to the workflow's repository with the previous sha exactly when a previous file exists; the report is "Updated" for truthy previous content, "Generated" otherwise |
| Index.Rerun | src/index.ts:47-126 | a second run with the same users, whose previous content is what the first run wrote (the local file holding the minified page, or a repository file holding its encoding), meets the skip condition that `Index.Run` states; this holds provided no name holds `-->`, U+2028 or U+2029, the minifier keeps the annotation at the head and base64 decoding undoes encoding |
| Action.Run | src/action.ts:7-72 | a commit happens exactly when there is no previous file or its decoded content differs from the rendered SVG; it goes to the workflow's repository at the SVG path with the encoded SVG and the commit message, carries the previous sha exactly when a previous file exists, and logs `Generated: "<path>"` |
| Action.RerunUnchanged | src/action.ts:52-67 | running again on the file a run committed, with the same users, writes nothing, provided decoding undoes encoding |

## Left out

- The GitHub API calls are not modelled; their results are parameters. These are `listContributors`, `listCollaborators`, `getLargeFile`, `getFile` and `createOrUpdateFileContents`.
- `getOctokit` and its token, and `core` logging are not modelled; they are I/O only.
- `listContributors` returns a single page in `src/util.ts`, and the model takes that page as given.
- The `fs` reads and writes are not modelled. A local file that cannot be read is an absent `local` parameter and ends the run in `Failed`. A write is returned as a `WriteRequest` value.
- Errors thrown by the network calls, and `core.setFailed`/`core.error`, are not modelled; they are I/O failures outside the model.
- Mustache (`mustache.parse`, `mustache.render`) is not modelled; it is a foreign library, taken as functions in `Gallery.Env`.
- The HTML minifier and `Buffer` base64 are not modelled; they are foreign code, taken as functions in `Gallery.Env`. Whether the minifier keeps the leading comment is therefore a `requires` of `Index.Rerun`, not a fact of the model.
- The `sum()` helper of the SVG view (`src/index.ts:99-109`) is left out. It evaluates template text as code and has no statable behaviour.
- `calcSectionHeight` and the per-user layout (`x`, `y`, `width`, `height`) have no shown body; the heights come from a function in `Gallery.Env`.
- Round avatars and grid layout have no shown body either.
- Numbers.ParseInt: the result is an exact integer. JavaScript's `parseInt` returns a double, which loses precision beyond 2^53.
- Json.EscapeChar: a lone surrogate, which `JSON.stringify` writes as a `\u` escape, cannot occur in a Dafny string, so the model has no such case.
- Index.Run, Action.Run: exceptions are not modelled, and the library functions are total. `mustache.parse` and `mustache.render` throw on a malformed template, and the minifier can throw too. Such an exception ends the run in `setFailed` without a write (`src/index.ts:67`, `src/index.ts:112`, `src/index.ts:127-129`; `src/action.ts:22`, `src/action.ts:68-71`).
- Index.AnnotationIsComment: stated only when no name holds `-->`, U+2028 or U+2029. A name with U+2028 or U+2029 makes the annotation no comment at all, as `Index.NeverSkipsWithSeparator` proves. A name holding `-->` is not stated.
- Index.SkipsContentWithAnnotation: stated only when no name holds `-->`, U+2028 or U+2029, for the same reason.
- Index.SkipsOwnOutput: stated only when no name holds `-->`, U+2028 or U+2029. With U+2028 or U+2029 the run never skips (`Index.NeverSkipsWithSeparator`). With `-->` in a name the case is not stated.
- Index.SkipsExactlyOnSameNames: stated only when no name of the earlier map holds `-->`, U+2028 or U+2029, for the same reason.
- Index.Rerun: stated only when no name holds `-->`, U+2028 or U+2029. With U+2028 or U+2029 every run writes again (`Index.NeverSkipsWithSeparator`). With `-->` in a name the case is not stated.
- Util.GetUsers: the API's `type` and `login` are plain strings. The API's wider record and the `affiliation` filter passed to `listCollaborators` belong to the API call, which is a parameter.
