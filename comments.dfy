/**
 The comment extraction `content.match(/<!--(.|[\r\n])*?-->/g)`: every
 HTML comment the lazy, global regular expression finds, left to right.
 In a JavaScript regular expression without the `s` flag `.` matches every
 character except the four line terminators; `[\r\n]` adds two of them back,
 so a comment body may hold anything but U+2028 and U+2029.
 */
module Comments {

  import opened Wrappers

  const LineSeparator := '\U{2028}'
  const ParagraphSeparator := '\U{2029}'

  /** A character the body `(.|[\r\n])` accepts. */
  predicate BodyChar(c: char)
  {
    c != LineSeparator && c != ParagraphSeparator
  }

  /** `s` has `<!--` at `k`. */
  predicate OpensAt(s: string, k: nat)
  {
    k + 4 <= |s| && s[k] == '<' && s[k + 1] == '!' && s[k + 2] == '-' && s[k + 3] == '-'
  }

  /** `s` has `-->` at `k`. */
  predicate ClosesAt(s: string, k: nat)
  {
    k + 3 <= |s| && s[k] == '-' && s[k + 1] == '-' && s[k + 2] == '>'
  }

  /**
   What one match is: `<!--`, a body of body characters in which `-->` does not
   start (the lazy body stops at the first one), then `-->`.
   */
  predicate IsComment(c: string)
  {
    && |c| >= 7
    && OpensAt(c, 0)
    && ClosesAt(c, |c| - 3)
    && forall j | 4 <= j < |c| - 3 :: BodyChar(c[j]) && !ClosesAt(c, j)
  }

  /**
   The lazy body scan from `k`: at each position try `-->` first, otherwise
   take one body character; gives the position of the closing `-->`.
   */
  function CloseFrom(s: string, k: nat): (r: Option<nat>)
    requires k <= |s|
    ensures r.Some? ==> k <= r.value && ClosesAt(s, r.value)
    ensures r.Some? ==> forall j | k <= j < r.value :: BodyChar(s[j]) && !ClosesAt(s, j)
    decreases |s| - k
  {
    if ClosesAt(s, k) then Some(k)
    else if k < |s| && BodyChar(s[k]) then CloseFrom(s, k + 1)
    else None
  }

  /** When a scan fails, every `-->` after `k` lies beyond a character the body refuses. */
  lemma {:induction false} CloseFromNone(s: string, k: nat, e: nat)
    requires k <= e && e <= |s| && CloseFrom(s, k).None? && ClosesAt(s, e)
    ensures exists j :: k <= j < e && !BodyChar(s[j])
    decreases e - k
  {
    if k == e {
      assert false;
    } else if BodyChar(s[k]) {
      CloseFromNone(s, k + 1, e);
    }
  }

  /** The scan finds the first `-->` when only body characters precede it. */
  lemma {:induction false} CloseFromFinds(s: string, k: nat, e: nat)
    requires k <= e && ClosesAt(s, e)
    requires forall j | k <= j < e :: BodyChar(s[j]) && !ClosesAt(s, j)
    ensures CloseFrom(s, k) == Some(e)
    decreases e - k
  {
    if k < e {
      CloseFromFinds(s, k + 1, e);
    }
  }

  /**
   The global match: at each position try a comment; after a match carry on
   behind it, otherwise one character further on.
   */
  function Matches(s: string): (r: seq<string>)
    ensures forall c | c in r :: IsComment(c)
    decreases |s|
  {
    if |s| < 4 then []
    else if OpensAt(s, 0) then
      match CloseFrom(s, 4)
      case Some(e) =>
        var c := s[..e + 3];
        assert forall j | 4 <= j < |c| - 3 :: c[j] == s[j] && (ClosesAt(c, j) <==> ClosesAt(s, j));
        [c] + Matches(s[e + 3..])
      case None => Matches(s[1..])
    else Matches(s[1..])
  }

  /** No `-->` starts anywhere in `s`. */
  predicate NoClose(s: string)
  {
    forall j | 0 <= j < |s| :: !ClosesAt(s, j)
  }

  /** A string without `-` holds no `-->`. */
  lemma NoDashNoClose(s: string)
    requires '-' !in s
    ensures NoClose(s)
  {
  }

  /**
   Joining two strings without `-->` makes none, unless one would straddle
   the seam: the left part ends with `-` and the right part starts with `-` or `>`.
   */
  lemma NoCloseConcat(a: string, b: string)
    requires NoClose(a) && NoClose(b)
    requires (a == [] || a[|a| - 1] != '-') || (b == [] || (b[0] != '-' && b[0] != '>'))
    ensures NoClose(a + b)
  {
    var s := a + b;
    forall j | 0 <= j < |s|
      ensures !ClosesAt(s, j)
    {
      if j + 3 <= |a| {
        assert ClosesAt(s, j) == ClosesAt(a, j);
      } else if j >= |a| {
        assert ClosesAt(s, j) == ClosesAt(b, j - |a|);
      }
    }
  }

  /** A `-` in front of a string without `-->` makes none unless the string starts with `->`. */
  lemma NoCloseDash(b: string)
    requires NoClose(b)
    requires !(|b| >= 2 && b[0] == '-' && b[1] == '>')
    ensures NoClose("-" + b)
  {
    var s := "-" + b;
    forall j | 0 <= j < |s|
      ensures !ClosesAt(s, j)
    {
      if j >= 1 {
        assert ClosesAt(s, j) == ClosesAt(b, j - 1);
      }
    }
  }

  /** `<!--`, a body without `-->`, U+2028 or U+2029, then `-->` is one comment. */
  lemma CommentOfBody(body: string)
    requires NoClose(body) && LineSeparator !in body && ParagraphSeparator !in body
    ensures IsComment("<!--" + body + "-->")
  {
    var c := "<!--" + body + "-->";
    assert forall j | 4 <= j < |c| - 3 :: c[j] == body[j - 4];
    assert c[|c| - 3] == '-' && c[|c| - 2] == '-';
    forall j | 4 <= j < |c| - 3
      ensures !ClosesAt(c, j)
    {
      if j + 3 <= 4 + |body| {
        assert ClosesAt(c, j) == ClosesAt(body, j - 4);
      }
    }
  }

  /** A comment at the front of a string is its first match; the matching resumes behind it. */
  lemma CommentFirst(c: string, rest: string)
    requires IsComment(c)
    ensures Matches(c + rest) == [c] + Matches(rest)
  {
    var s := c + rest;
    assert forall j | 0 <= j < |c| :: s[j] == c[j];
    assert forall j | 4 <= j < |c| - 3 :: ClosesAt(s, j) == ClosesAt(c, j);
    CloseFromFinds(s, 4, |c| - 3);
    assert s[..|c|] == c;
    assert s[|c|..] == rest;
  }

  /** A string with no `<!--` has no match. */
  lemma {:induction false} NoOpenNoMatch(s: string)
    requires forall k | 0 <= k < |s| :: !OpensAt(s, k)
    ensures Matches(s) == []
    decreases |s|
  {
    if |s| >= 4 {
      assert !OpensAt(s, 0);
      assert forall k | 0 <= k < |s| - 1 :: OpensAt(s[1..], k) == OpensAt(s, k + 1);
      NoOpenNoMatch(s[1..]);
    }
  }
}
