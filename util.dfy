/**
 The input defaulting and the user-list normaliser of `src/util.ts`.
 The contributor and collaborator listings the GitHub API returned are
 parameters: `listContributors` hands over its `data` array, which the
 normaliser may reorder in place, and `listCollaborators` its records.
 */
module Util {

  import opened Wrappers
  import Numbers

  /** A record of `repos.listContributors`, reduced to the fields the normaliser reads. */
  datatype Contributor = Contributor(
    login: string,
    kind: string,           // the API's `type`, e.g. "User" or "Bot"
    avatarUrl: string,
    htmlUrl: string,
    contributions: int)

  /** A record of `repos.listCollaborators`, reduced to the fields the normaliser reads. */
  datatype Collaborator = Collaborator(login: string, avatarUrl: string, htmlUrl: string)

  /** The entry labels `'contributor' | 'bot' | 'collaborator'`. */
  datatype UserType = ContributorUser | BotUser | CollaboratorUser

  /** An output entry `{ name, avatar, url, type, contributions? }`. */
  datatype User = User(
    name: string,
    avatar: string,
    url: string,
    userType: UserType,
    contributions: Option<int>)

  /** What `core.getInput` returned for each input; an input that is not set reads as "". */
  datatype RawInputs = RawInputs(
    repo: string,
    sort: string,
    includeBots: string,
    includeCollaborators: string,
    collaboratorType: string,
    svgName: string,
    svgPath: string,
    svgWidth: string,
    avatarSize: string)

  /** The record `getInputs` returns. */
  datatype Inputs = Inputs(
    repo: string,
    sort: bool,
    includeBots: bool,
    includeCollaborators: bool,
    collaboratorType: string,
    svgName: string,
    svgPath: string,
    svgWidth: int,
    avatarSize: int)

  const DefaultRepo := "/"
  const DefaultSvgName := "contributors"
  const DefaultSvgPath := "./"
  const DefaultSvgWidth := 768
  const DefaultAvatarSize := 64

  /** `value || fallback` for a string: the empty string is the only falsy one. */
  function OrElse(value: string, fallback: string): (r: string)
    ensures value != "" ==> r == value
    ensures value == "" ==> r == fallback
  {
    if value == "" then fallback else value
  }

  /** `isNaN(n) ? fallback : n` for the result of `parseInt`. */
  function NumberOr(parsed: Option<int>, fallback: int): (r: int)
    ensures parsed.Some? ==> r == parsed.value
    ensures parsed.None? ==> r == fallback
  {
    match parsed
    case Some(n) => n
    case None => fallback
  }

  /** `getInputs`: the flags are true exactly for the text "true"; texts and numbers fall back to defaults. */
  function GetInputs(raw: RawInputs): (inputs: Inputs)
    ensures inputs.repo != "" && inputs.svgName != "" && inputs.svgPath != ""
    ensures raw.repo != "" ==> inputs.repo == raw.repo
    ensures raw.svgName != "" ==> inputs.svgName == raw.svgName
    ensures raw.svgPath != "" ==> inputs.svgPath == raw.svgPath
    ensures inputs.sort <==> raw.sort == "true"
    ensures inputs.includeBots <==> raw.includeBots == "true"
    ensures inputs.includeCollaborators <==> raw.includeCollaborators == "true"
    ensures inputs.collaboratorType == raw.collaboratorType
    ensures Numbers.ParseInt(raw.svgWidth).Some? ==> inputs.svgWidth == Numbers.ParseInt(raw.svgWidth).value
    ensures Numbers.ParseInt(raw.avatarSize).Some? ==> inputs.avatarSize == Numbers.ParseInt(raw.avatarSize).value
    ensures Numbers.ParseInt(raw.svgWidth).None? ==> inputs.svgWidth == DefaultSvgWidth
    ensures Numbers.ParseInt(raw.avatarSize).None? ==> inputs.avatarSize == DefaultAvatarSize
  {
    Inputs(
      repo := OrElse(raw.repo, DefaultRepo),
      sort := raw.sort == "true",
      includeBots := raw.includeBots == "true",
      includeCollaborators := raw.includeCollaborators == "true",
      collaboratorType := raw.collaboratorType,
      svgName := OrElse(raw.svgName, DefaultSvgName),
      svgPath := OrElse(raw.svgPath, DefaultSvgPath),
      svgWidth := NumberOr(Numbers.ParseInt(raw.svgWidth), DefaultSvgWidth),
      avatarSize := NumberOr(Numbers.ParseInt(raw.avatarSize), DefaultAvatarSize))
  }

  /**
   A width or avatar size written as decimal digits is read as that number;
   a text without any digit (an input that is not set, say) gives the default.
   */
  lemma GetInputsNumbers(raw: RawInputs, width: nat, size: nat)
    ensures raw.svgWidth == Numbers.Decimal(width) ==> GetInputs(raw).svgWidth == width
    ensures raw.avatarSize == Numbers.Decimal(size) ==> GetInputs(raw).avatarSize == size
    ensures (forall k | 0 <= k < |raw.svgWidth| :: !Numbers.IsDigit(raw.svgWidth[k])) ==>
              GetInputs(raw).svgWidth == DefaultSvgWidth
    ensures (forall k | 0 <= k < |raw.avatarSize| :: !Numbers.IsDigit(raw.avatarSize[k])) ==>
              GetInputs(raw).avatarSize == DefaultAvatarSize
  {
    Numbers.ParseIntRoundTrip(width);
    Numbers.ParseIntRoundTrip(size);
  }

  /** With no input set at all, every field takes its default. */
  lemma GetInputsAllUnset()
    ensures GetInputs(RawInputs("", "", "", "", "", "", "", "", "")) ==
            Inputs(DefaultRepo, false, false, false, "", DefaultSvgName, DefaultSvgPath, DefaultSvgWidth, DefaultAvatarSize)
  {
  }

  // ---------------------------------------------------------------------------
  // Bot filter

  /** `data.filter((el) => el.type !== 'Bot')`. */
  function WithoutBots(s: seq<Contributor>): (r: seq<Contributor>)
    ensures |r| <= |s|
    ensures forall i | 0 <= i < |r| :: r[i].kind != "Bot" && r[i] in s
  {
    if s == [] then []
    else
      var last := s[|s| - 1];
      var r := WithoutBots(s[..|s| - 1]) + (if last.kind != "Bot" then [last] else []);
      assert forall e | e in s[..|s| - 1] :: e in s;
      r
  }

  /** The filter works record by record: it keeps API order and drops nothing but bots. */
  lemma {:induction false} WithoutBotsAppend(a: seq<Contributor>, b: seq<Contributor>)
    ensures WithoutBots(a + b) == WithoutBots(a) + WithoutBots(b)
    decreases |b|
  {
    if b != [] {
      assert (a + b)[..|a + b| - 1] == a + b[..|b| - 1];
      WithoutBotsAppend(a, b[..|b| - 1]);
    } else {
      assert a + b == a;
    }
  }

  /** Every record that is not a bot survives the filter, as often as it occurs. */
  lemma {:induction false} WithoutBotsKeepsOthers(s: seq<Contributor>, e: Contributor)
    requires e.kind != "Bot"
    ensures multiset(WithoutBots(s))[e] == multiset(s)[e]
    decreases |s|
  {
    if s != [] {
      var init, last := s[..|s| - 1], s[|s| - 1];
      WithoutBotsKeepsOthers(init, e);
      assert s == init + [last];
      assert multiset(s) == multiset(init) + multiset{last};
      var tail := if last.kind != "Bot" then [last] else [];
      assert WithoutBots(s) == WithoutBots(init) + tail;
      assert multiset(WithoutBots(s)) == multiset(WithoutBots(init)) + multiset(tail);
    }
  }

  // ---------------------------------------------------------------------------
  // Stable descending sort by contributions

  /** Records in non-increasing order of contributions. */
  predicate SortedByContributions(s: seq<Contributor>) {
    forall i, j | 0 <= i < j < |s| :: s[i].contributions >= s[j].contributions
  }

  /** The records with exactly `k` contributions, in their order in `s`. */
  function WithCount(s: seq<Contributor>, k: int): (r: seq<Contributor>)
    ensures forall i | 0 <= i < |r| :: r[i].contributions == k && r[i] in s
  {
    if s == [] then []
    else
      var last := s[|s| - 1];
      assert forall e | e in s[..|s| - 1] :: e in s;
      WithCount(s[..|s| - 1], k) + (if last.contributions == k then [last] else [])
  }

  /**
   `x` placed into `sorted` after every record with at least as many
   contributions, the way one pass of an insertion sort places it.
   */
  function InsertByContributions(sorted: seq<Contributor>, x: Contributor): (r: seq<Contributor>)
    ensures |r| == |sorted| + 1
  {
    if sorted == [] then [x]
    else
      var init := sorted[..|sorted| - 1];
      var last := sorted[|sorted| - 1];
      if last.contributions < x.contributions then InsertByContributions(init, x) + [last]
      else sorted + [x]
  }

  /** Inserting adds `x` and loses nothing. */
  lemma {:induction false} InsertPermutes(sorted: seq<Contributor>, x: Contributor)
    ensures multiset(InsertByContributions(sorted, x)) == multiset(sorted) + multiset{x}
    decreases |sorted|
  {
    if sorted != [] {
      var init := sorted[..|sorted| - 1];
      var last := sorted[|sorted| - 1];
      assert sorted == init + [last];
      InsertPermutes(init, x);
    }
  }

  /** Inserting into a sorted list keeps it sorted. */
  lemma {:induction false} InsertKeepsSorted(sorted: seq<Contributor>, x: Contributor)
    requires SortedByContributions(sorted)
    ensures SortedByContributions(InsertByContributions(sorted, x))
    decreases |sorted|
  {
    if sorted != [] {
      var init := sorted[..|sorted| - 1];
      var last := sorted[|sorted| - 1];
      if last.contributions < x.contributions {
        InsertKeepsSorted(init, x);
        var front := InsertByContributions(init, x);
        InsertPermutes(init, x);
        forall i | 0 <= i < |front| ensures front[i].contributions >= last.contributions {
          assert front[i] in multiset(front);
          assert front[i] in multiset(init) || front[i] == x;
          if front[i] != x {
            assert front[i] in init;
          }
        }
      }
    }
  }

  /**
   What `contributors.sort((a, b) => b.contributions - a.contributions)` leaves:
   the comparator puts larger counts first and, since ECMAScript 2019, the sort
   is stable. Specified here by insertion, record by record.
   */
  function SortByContributions(s: seq<Contributor>): (r: seq<Contributor>)
    ensures multiset(r) == multiset(s)
    ensures SortedByContributions(r)
  {
    if s == [] then []
    else
      assert s == s[..|s| - 1] + [s[|s| - 1]];
      InsertKeepsSorted(SortByContributions(s[..|s| - 1]), s[|s| - 1]);
      InsertPermutes(SortByContributions(s[..|s| - 1]), s[|s| - 1]);
      InsertByContributions(SortByContributions(s[..|s| - 1]), s[|s| - 1])
  }

  lemma {:induction false} WithCountAppend(a: seq<Contributor>, b: seq<Contributor>, k: int)
    ensures WithCount(a + b, k) == WithCount(a, k) + WithCount(b, k)
    decreases |b|
  {
    if b != [] {
      assert (a + b)[..|a + b| - 1] == a + b[..|b| - 1];
      WithCountAppend(a, b[..|b| - 1], k);
    } else {
      assert a + b == a;
    }
  }

  /** Inserting `x` adds `x` after every record of its own count and moves nothing else. */
  lemma {:induction false} InsertWithCount(sorted: seq<Contributor>, x: Contributor, k: int)
    ensures WithCount(InsertByContributions(sorted, x), k) ==
            WithCount(sorted, k) + (if x.contributions == k then [x] else [])
    decreases |sorted|
  {
    if sorted != [] {
      var init := sorted[..|sorted| - 1];
      var last := sorted[|sorted| - 1];
      if last.contributions < x.contributions {
        InsertWithCount(init, x, k);
        WithCountAppend(InsertByContributions(init, x), [last], k);
        assert [last][..0] == [];
      } else {
        assert (sorted + [x])[..|sorted|] == sorted;
      }
    }
  }

  /** Stability: among records with equal counts the sort keeps the API's order. */
  lemma {:induction false} SortIsStable(s: seq<Contributor>, k: int)
    ensures WithCount(SortByContributions(s), k) == WithCount(s, k)
    decreases |s|
  {
    if s != [] {
      SortIsStable(s[..|s| - 1], k);
      InsertWithCount(SortByContributions(s[..|s| - 1]), s[|s| - 1], k);
    }
  }

  /** The last record of a non-empty list is among the records of its own count. */
  lemma LastWithCount(s: seq<Contributor>)
    requires s != []
    ensures WithCount(s, s[|s| - 1].contributions) ==
            WithCount(s[..|s| - 1], s[|s| - 1].contributions) + [s[|s| - 1]]
  {
  }

  /** A record listed among those of count `k` in a sorted list has no fewer contributions than its last record. */
  lemma CountedAboveLast(s: seq<Contributor>, k: int)
    requires s != [] && SortedByContributions(s)
    requires WithCount(s, k) != []
    ensures k >= s[|s| - 1].contributions
  {
    var w := WithCount(s, k);
    var e := w[|w| - 1];
    assert e in s;
    var i :| 0 <= i < |s| && s[i] == e;
    assert i == |s| - 1 || s[i].contributions >= s[|s| - 1].contributions;
  }

  /** Two sorted lists that agree on the counts of their last records end with the same record. */
  lemma SameLast(r: seq<Contributor>, q: seq<Contributor>)
    requires r != [] && q != []
    requires SortedByContributions(r) && SortedByContributions(q)
    requires WithCount(r, r[|r| - 1].contributions) == WithCount(q, r[|r| - 1].contributions)
    requires WithCount(r, q[|q| - 1].contributions) == WithCount(q, q[|q| - 1].contributions)
    ensures r[|r| - 1] == q[|q| - 1]
  {
    var a, b := r[|r| - 1], q[|q| - 1];
    LastWithCount(r);
    LastWithCount(q);
    var w, v := WithCount(r, a.contributions), WithCount(q, b.contributions);
    assert w != [] && w[|w| - 1] == a;
    assert v != [] && v[|v| - 1] == b;
    CountedAboveLast(q, a.contributions);
    CountedAboveLast(r, b.contributions);
    assert a.contributions == b.contributions;
    assert w == v;
  }

  /** Removing the same last record from two lists that agree count by count leaves lists that agree. */
  lemma DropSameLast(r: seq<Contributor>, q: seq<Contributor>, r': seq<Contributor>, q': seq<Contributor>, a: Contributor)
    requires r == r' + [a] && q == q' + [a]
    requires forall k :: WithCount(r, k) == WithCount(q, k)
    ensures forall k :: WithCount(r', k) == WithCount(q', k)
  {
    assert r[..|r| - 1] == r' && q[..|q| - 1] == q';
    forall k ensures WithCount(r', k) == WithCount(q', k) {
      var tail := if a.contributions == k then [a] else [];
      assert WithCount(r, k) == WithCount(r', k) + tail;
      assert WithCount(q, k) == WithCount(q', k) + tail;
      assert WithCount(r, k) == WithCount(q, k);
      assert (WithCount(r', k) + tail)[..|WithCount(r', k)|] == WithCount(r', k);
      assert (WithCount(q', k) + tail)[..|WithCount(q', k)|] == WithCount(q', k);
    }
  }

  /**
   Two sorted lists that agree, count by count, on which records they hold and
   in what order, are the same list.
   */
  lemma {:induction false} SortedDeterminedByCounts(r: seq<Contributor>, q: seq<Contributor>)
    requires SortedByContributions(r) && SortedByContributions(q)
    requires forall k :: WithCount(r, k) == WithCount(q, k)
    ensures r == q
    decreases |r| + |q|
  {
    if r == [] && q != [] {
      LastWithCount(q);
      assert false;
    } else if r != [] && q == [] {
      LastWithCount(r);
      assert false;
    } else if r != [] {
      assert WithCount(r, r[|r| - 1].contributions) == WithCount(q, r[|r| - 1].contributions);
      assert WithCount(r, q[|q| - 1].contributions) == WithCount(q, q[|q| - 1].contributions);
      SameLast(r, q);
      var r', q', a := r[..|r| - 1], q[..|q| - 1], r[|r| - 1];
      assert r == r' + [a] && q == q' + [a];
      DropSameLast(r, q, r', q', a);
      SortedDeterminedByCounts(r', q');
    }
  }

  /**
   Any stable descending sort gives the same list as `SortByContributions`:
   the result does not depend on the sorting algorithm an engine uses.
   */
  lemma SortIsUnique(s: seq<Contributor>, r: seq<Contributor>)
    requires SortedByContributions(r)
    requires forall k :: WithCount(r, k) == WithCount(s, k)
    ensures r == SortByContributions(s)
  {
    forall k ensures WithCount(r, k) == WithCount(SortByContributions(s), k) {
      SortIsStable(s, k);
    }
    SortedDeterminedByCounts(r, SortByContributions(s));
  }

  // ---------------------------------------------------------------------------
  // In-place sort

  /**
   Where the insertion lands: after the last record with at least as many
   contributions, when all records behind that point have fewer.
   */
  lemma {:induction false} InsertAt(sorted: seq<Contributor>, j: nat, x: Contributor)
    requires j <= |sorted|
    requires forall k | j <= k < |sorted| :: sorted[k].contributions < x.contributions
    requires j == 0 || sorted[j - 1].contributions >= x.contributions
    ensures InsertByContributions(sorted, x) == sorted[..j] + [x] + sorted[j..]
    decreases |sorted|
  {
    if j < |sorted| {
      var init := sorted[..|sorted| - 1];
      InsertAt(init, j, x);
      assert init[..j] == sorted[..j];
      assert sorted[j..] == init[j..] + [sorted[|sorted| - 1]];
    } else {
      assert sorted[..j] == sorted;
    }
  }

  /** One pass of the insertion sort: `a[i]` moves left past the smaller counts. */
  method InsertInPlace(a: array<Contributor>, i: nat)
    requires i < a.Length
    modifies a
    ensures a[..i + 1] == InsertByContributions(old(a[..i]), old(a[i]))
    ensures a[i + 1..] == old(a[i + 1..])
  {
    ghost var sorted := a[..i];
    var x := a[i];
    var j := i;
    while j > 0 && a[j - 1].contributions < x.contributions
      invariant 0 <= j <= i
      invariant forall k | 0 <= k < j :: a[k] == sorted[k]
      invariant forall k | j < k <= i :: a[k] == sorted[k - 1]
      invariant forall k | i < k < a.Length :: a[k] == old(a[k])
      invariant forall k | j <= k < i :: sorted[k].contributions < x.contributions
    {
      a[j] := a[j - 1];
      j := j - 1;
    }
    a[j] := x;
    InsertAt(sorted, j, x);
    ghost var inserted := sorted[..j] + [x] + sorted[j..];
    assert forall k | 0 <= k <= i :: a[k] == inserted[k];
    assert a[..i + 1] == inserted;
  }

  /** Sorting one more record is inserting it into the sorted rest. */
  lemma SortStep(s: seq<Contributor>, i: nat)
    requires i < |s|
    ensures SortByContributions(s[..i + 1]) == InsertByContributions(SortByContributions(s[..i]), s[i])
  {
    assert s[..i + 1][..i] == s[..i];
  }

  /** `contributors.sort(...)` on the array itself, one insertion per record. */
  method SortInPlace(a: array<Contributor>)
    modifies a
    ensures a[..] == SortByContributions(old(a[..]))
  {
    ghost var original := a[..];
    for i := 0 to a.Length
      invariant a[..i] == SortByContributions(original[..i])
      invariant forall k | i <= k < a.Length :: a[k] == original[k]
    {
      InsertInPlace(a, i);
      SortStep(original, i);
    }
    assert a[..] == a[..a.Length];
    assert original[..a.Length] == original;
  }

  // ---------------------------------------------------------------------------
  // Entries

  function ContributorEntry(c: Contributor): User {
    User(c.login, c.avatarUrl, c.htmlUrl, if c.kind == "bot" then BotUser else ContributorUser, Some(c.contributions))
  }

  function CollaboratorEntry(c: Collaborator): User {
    User(c.login, c.avatarUrl, c.htmlUrl, CollaboratorUser, None)
  }

  /** One entry per contributor record, in order. */
  function ContributorEntries(cs: seq<Contributor>): (r: seq<User>)
    ensures |r| == |cs|
    ensures forall i | 0 <= i < |cs| :: r[i] == ContributorEntry(cs[i])
  {
    if cs == [] then [] else ContributorEntries(cs[..|cs| - 1]) + [ContributorEntry(cs[|cs| - 1])]
  }

  /** One entry per collaborator record, in order. */
  function CollaboratorEntries(cs: seq<Collaborator>): (r: seq<User>)
    ensures |r| == |cs|
    ensures forall i | 0 <= i < |cs| :: r[i] == CollaboratorEntry(cs[i])
  {
    if cs == [] then [] else CollaboratorEntries(cs[..|cs| - 1]) + [CollaboratorEntry(cs[|cs| - 1])]
  }

  /** The contributor records that reach the output, in output order. */
  function KeptContributors(data: seq<Contributor>, options: Inputs): (r: seq<Contributor>)
    ensures forall i | 0 <= i < |r| :: r[i] in data
    ensures options.includeBots ==> |r| == |data|
    ensures !options.includeBots ==> forall i | 0 <= i < |r| :: r[i].kind != "Bot"
  {
    var kept := if options.includeBots then data else WithoutBots(data);
    var r := if options.sort then SortByContributions(kept) else kept;
    assert forall i | 0 <= i < |r| :: r[i] in kept by {
      forall i | 0 <= i < |r| ensures r[i] in kept {
        assert r[i] in multiset(r);
      }
    }
    r
  }

  /**
   The records kept: with bots included, all of them; otherwise all but the
   `"Bot"` ones. Unsorted they stay in API order; sorted they are in
   descending order of contributions, equal counts in API order.
   */
  lemma KeptContributorsSpec(data: seq<Contributor>, options: Inputs)
    ensures var base := if options.includeBots then data else WithoutBots(data);
            var kept := KeptContributors(data, options);
            && multiset(kept) == multiset(base)
            && (!options.sort ==> kept == base)
            && (options.sort ==> SortedByContributions(kept) && forall k :: WithCount(kept, k) == WithCount(base, k))
            && (!options.includeBots ==> forall i | 0 <= i < |kept| :: kept[i].kind != "Bot")
            && (options.includeBots ==> multiset(kept) == multiset(data))
  {
    var base := if options.includeBots then data else WithoutBots(data);
    var kept := KeptContributors(data, options);
    if options.sort {
      forall k ensures WithCount(kept, k) == WithCount(base, k) {
        SortIsStable(base, k);
      }
    }
    if !options.includeBots {
      forall i | 0 <= i < |kept| ensures kept[i].kind != "Bot" {
        assert kept[i] in multiset(kept);
        assert kept[i] in base;
      }
    }
  }

  /** The list `getUsers` returns. */
  function UserList(data: seq<Contributor>, collaborators: seq<Collaborator>, options: Inputs): (r: seq<User>)
    ensures |r| == |KeptContributors(data, options)| + if options.includeCollaborators then |collaborators| else 0
  {
    ContributorEntries(KeptContributors(data, options))
      + (if options.includeCollaborators then CollaboratorEntries(collaborators) else [])
  }

  /**
   The shape of the list: one entry per kept contributor, in order, then, when
   collaborators are included, one per collaborator, in order. A contributor
   entry is labelled `'bot'` exactly when the API type is the lower-case
   `"bot"`; a collaborator entry copies login and URLs and has no count.
   */
  lemma UserListShape(data: seq<Contributor>, collaborators: seq<Collaborator>, options: Inputs)
    ensures var users := UserList(data, collaborators, options);
            var kept := KeptContributors(data, options);
            && |users| == |kept| + (if options.includeCollaborators then |collaborators| else 0)
            && (forall i | 0 <= i < |kept| ::
                  && users[i].name == kept[i].login
                  && users[i].avatar == kept[i].avatarUrl
                  && users[i].url == kept[i].htmlUrl
                  && users[i].contributions == Some(kept[i].contributions)
                  && (users[i].userType == BotUser <==> kept[i].kind == "bot")
                  && (users[i].userType == ContributorUser <==> kept[i].kind != "bot"))
            && (forall i | |kept| <= i < |users| ::
                  users[i] == User(collaborators[i - |kept|].login, collaborators[i - |kept|].avatarUrl,
                                   collaborators[i - |kept|].htmlUrl, CollaboratorUser, None))
  {
  }

  /**
   The contributors `getUsers` goes on with: the API's own array when bots are
   included, a fresh filtered copy otherwise; sorted in place when asked.
   */
  method SelectContributors(data: array<Contributor>, options: Inputs) returns (contributors: array<Contributor>)
    modifies data
    ensures contributors[..] == KeptContributors(old(data[..]), options)
    ensures options.includeBots ==> contributors == data
    ensures !options.includeBots ==> fresh(contributors)
    ensures data[..] == if options.includeBots && options.sort then SortByContributions(old(data[..])) else old(data[..])
  {
    if options.includeBots {
      contributors := data;
    } else {
      var filtered := WithoutBots(data[..]);
      contributors := new Contributor[|filtered|](i requires 0 <= i < |filtered| => filtered[i]);
      assert contributors[..] == filtered;
    }
    if options.sort {
      SortInPlace(contributors);
    }
  }

  /**
   `getUsers`: drop bots unless they are included, sort when asked (on the
   API's own array when nothing was filtered out), then push one entry per
   contributor and, when asked, one per collaborator.
   */
  method GetUsers(data: array<Contributor>, collaborators: seq<Collaborator>, options: Inputs)
    returns (users: seq<User>)
    modifies data
    ensures users == UserList(old(data[..]), collaborators, options)
    ensures data[..] == if options.includeBots && options.sort then SortByContributions(old(data[..])) else old(data[..])
  {
    var contributors := SelectContributors(data, options);
    ghost var kept := contributors[..];
    users := [];
    for i := 0 to contributors.Length
      invariant users == ContributorEntries(kept[..i])
    {
      assert kept[..i + 1][..i] == kept[..i];
      users := users + [ContributorEntry(contributors[i])];
    }
    assert kept[..contributors.Length] == kept;
    if options.includeCollaborators {
      ghost var front := users;
      for i := 0 to |collaborators|
        invariant users == front + CollaboratorEntries(collaborators[..i])
      {
        assert collaborators[..i + 1][..i] == collaborators[..i];
        users := users + [CollaboratorEntry(collaborators[i])];
      }
      assert collaborators[..|collaborators|] == collaborators;
    }
  }
}
