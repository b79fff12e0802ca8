/**
 `JSON.stringify` of the name map `{ contributors, collaborators, bots }`
 that the publish gate embeds in its annotation, and a reader for that text.
 The reader is the partner of the writer: it reads back exactly what was
 written, so two different name maps never give the same text.
 */
module Json {

  import opened Wrappers
  import Text

  /** The object `{ contributors, collaborators, bots }`: one list of names per category, keys in that order. */
  datatype NameMap = NameMap(contributors: seq<string>, collaborators: seq<string>, bots: seq<string>)

  /** The digits `JSON.stringify` uses in `\u` escapes (lower case). */
  const HexDigits := "0123456789abcdef"

  /**
   How `JSON.stringify` writes one character inside a string literal: the
   quote, the backslash and five control characters get a short escape, the
   other characters below U+0020 a `\u00xx` escape, everything else itself.
   */
  function EscapeChar(c: char): (r: string)
    ensures Copied(c) ==> r == [c]
    ensures !Copied(c) ==> |r| >= 2 && r[0] == '\\'
  {
    if c == '"' then "\\\""
    else if c == '\\' then "\\\\"
    else if c == '\U{8}' then "\\b"
    else if c == '\t' then "\\t"
    else if c == '\n' then "\\n"
    else if c == '\U{C}' then "\\f"
    else if c == '\r' then "\\r"
    else if c < ' ' then "\\u00" + [HexDigits[c as int / 16], HexDigits[c as int % 16]]
    else [c]
  }

  /** The body of a string literal: each character escaped in turn. */
  function Escape(s: string): string
  {
    if s == [] then "" else EscapeChar(s[0]) + Escape(s[1..])
  }

  /** A string literal. */
  function Quote(s: string): string
  {
    "\"" + Escape(s) + "\""
  }

  /** The string literals of a list of names, in order. */
  function Quoted(names: seq<string>): (r: seq<string>)
    ensures |r| == |names|
  {
    if names == [] then [] else [Quote(names[0])] + Quoted(names[1..])
  }

  /** An array of strings: the literals joined by commas, in brackets. */
  function StringList(names: seq<string>): string
  {
    "[" + Text.Join(Quoted(names), ',') + "]"
  }

  const ContributorsKey := "{\"contributors\":"
  const CollaboratorsKey := ",\"collaborators\":"
  const BotsKey := ",\"bots\":"

  /** `JSON.stringify(map)` with no indentation. */
  function Stringify(m: NameMap): (r: string)
    ensures |r| > 1 && r[0] == '{' && r[|r| - 1] == '}'
  {
    ContributorsKey + (StringList(m.contributors)
      + (CollaboratorsKey + (StringList(m.collaborators)
      + (BotsKey + (StringList(m.bots) + "}")))))
  }

  // ---------------------------------------------------------------------------
  // Reading

  function HexValue(c: char): Option<nat>
  {
    if '0' <= c <= '9' then Some(c as int - '0' as int)
    else if 'a' <= c <= 'f' then Some(c as int - 'a' as int + 10)
    else if 'A' <= c <= 'F' then Some(c as int - 'A' as int + 10)
    else None
  }

  /** The character a `\uXXXX` escape stands for (a lone surrogate half stands for none). */
  function UnicodeEscape(t: string): Option<char>
    requires |t| == 4
  {
    match (HexValue(t[0]), HexValue(t[1]), HexValue(t[2]), HexValue(t[3]))
    case (Some(a), Some(b), Some(c), Some(d)) =>
      var v := 4096 * a + 256 * b + 16 * c + d;
      if v < 0xD800 || 0xE000 <= v < 0x11_0000 then Some(v as char) else None
    case _ => None
  }

  /** Reads one character of a literal's body; the closing quote is not one. */
  function ReadChar(t: string): (r: Option<(char, string)>)
    ensures r.Some? ==> |r.value.1| < |t|
  {
    if t == [] || t[0] == '"' then None
    else if t[0] != '\\' then Some((t[0], t[1..]))
    else if |t| < 2 then None
    else if t[1] == '"' then Some(('"', t[2..]))
    else if t[1] == '\\' then Some(('\\', t[2..]))
    else if t[1] == '/' then Some(('/', t[2..]))
    else if t[1] == 'b' then Some(('\U{8}', t[2..]))
    else if t[1] == 't' then Some(('\t', t[2..]))
    else if t[1] == 'n' then Some(('\n', t[2..]))
    else if t[1] == 'f' then Some(('\U{C}', t[2..]))
    else if t[1] == 'r' then Some(('\r', t[2..]))
    else if t[1] == 'u' && |t| >= 6 then
      match UnicodeEscape(t[2..6])
      case Some(c) => Some((c, t[6..]))
      case None => None
    else None
  }

  /** Reads a literal's body and its closing quote; gives the string and what follows. */
  function ReadString(t: string): (r: Option<(string, string)>)
    ensures r.Some? ==> |r.value.1| < |t|
    decreases |t|
  {
    if t == [] then None
    else if t[0] == '"' then Some(("", t[1..]))
    else match ReadChar(t)
      case None => None
      case Some((c, rest)) =>
        match ReadString(rest)
        case None => None
        case Some((s, after)) => Some(([c] + s, after))
  }

  /** Reads the items of a non-empty array after its `[`, through the closing `]`. */
  function ReadItems(t: string): (r: Option<(seq<string>, string)>)
    ensures r.Some? ==> |r.value.1| < |t|
    decreases |t|
  {
    if t == [] || t[0] != '"' then None
    else match ReadString(t[1..])
      case None => None
      case Some((s, after)) =>
        if after != [] && after[0] == ']' then Some(([s], after[1..]))
        else if after != [] && after[0] == ',' then
          match ReadItems(after[1..])
          case None => None
          case Some((ss, rest)) => Some(([s] + ss, rest))
        else None
  }

  /** Reads an array of strings. */
  function ReadList(t: string): Option<(seq<string>, string)>
  {
    if |t| >= 2 && t[..2] == "[]" then Some(([], t[2..]))
    else if t != [] && t[0] == '[' then ReadItems(t[1..])
    else None
  }

  /** Consumes the text `lit` at the front of `t`. */
  function Expect(t: string, lit: string): Option<string>
  {
    if |lit| <= |t| && t[..|lit|] == lit then Some(t[|lit|..]) else None
  }

  /** Reads a name map written with its keys in the order `Stringify` writes them. */
  function ReadNameMap(t: string): Option<(NameMap, string)>
  {
    match Expect(t, ContributorsKey)
    case None => None
    case Some(t1) =>
      match ReadList(t1)
      case None => None
      case Some((contributors, t2)) =>
        match Expect(t2, CollaboratorsKey)
        case None => None
        case Some(t3) =>
          match ReadList(t3)
          case None => None
          case Some((collaborators, t4)) =>
            match Expect(t4, BotsKey)
            case None => None
            case Some(t5) =>
              match ReadList(t5)
              case None => None
              case Some((bots, t6)) =>
                match Expect(t6, "}")
                case None => None
                case Some(t7) => Some((NameMap(contributors, collaborators, bots), t7))
  }

  // ---------------------------------------------------------------------------
  // Round trip

  lemma HexDigitValue(k: nat)
    requires k < 16
    ensures HexValue(HexDigits[k]) == Some(k)
  {
  }

  /** One escaped character reads back as that character. */
  lemma ReadEscapeChar(c: char, more: string)
    ensures ReadChar(EscapeChar(c) + more) == Some((c, more))
  {
    var e := EscapeChar(c);
    var t := e + more;
    if c != '"' && c != '\\' && c != '\U{8}' && c != '\t' && c != '\n' && c != '\U{C}' && c != '\r' {
      if c < ' ' {
        var hi, lo := c as int / 16, c as int % 16;
        HexDigitValue(hi);
        HexDigitValue(lo);
        assert HexDigits[0] == '0';
        assert t[2..6] == ['0', '0', HexDigits[hi], HexDigits[lo]];
        assert t[6..] == more;
      } else {
        assert t[1..] == more;
      }
    } else {
      assert t[2..] == more;
    }
  }

  lemma EscapeSplit(s: string, rest: string)
    requires s != []
    ensures Escape(s) + rest == EscapeChar(s[0]) + (Escape(s[1..]) + rest)
  {
    Associate(EscapeChar(s[0]), Escape(s[1..]), rest);
  }

  /** No escaped character starts with a quote. */
  lemma EscapeCharHead(c: char, more: string)
    ensures (EscapeChar(c) + more)[0] != '"'
  {
  }

  /** One step of reading a literal's body. */
  lemma ReadStringStep(t: string, c: char, more: string, s: string, after: string)
    requires t != [] && t[0] != '"'
    requires ReadChar(t) == Some((c, more))
    requires ReadString(more) == Some((s, after))
    ensures ReadString(t) == Some(([c] + s, after))
  {
  }

  /** The body of a literal, then its closing quote, reads back as the string. */
  lemma {:induction false} ReadQuoted(s: string, rest: string)
    ensures ReadString(Escape(s) + ("\"" + rest)) == Some((s, rest))
    decreases |s|
  {
    if s == [] {
      assert Escape(s) + ("\"" + rest) == "\"" + rest;
    } else {
      var more := Escape(s[1..]) + ("\"" + rest);
      EscapeSplit(s, "\"" + rest);
      ReadEscapeChar(s[0], more);
      ReadQuoted(s[1..], rest);
      EscapeCharHead(s[0], more);
      ReadStringStep(EscapeChar(s[0]) + more, s[0], more, s[1..], rest);
      assert [s[0]] + s[1..] == s;
    }
  }

  /** A literal, then what follows it, splits after the closing quote. */
  lemma ReadQuote(s: string, rest: string)
    ensures var t := Quote(s) + rest;
            t[0] == '"' && ReadString(t[1..]) == Some((s, rest))
  {
    var body := Escape(s) + ("\"" + rest);
    assert Quote(s) + rest == "\"" + body;
    assert ("\"" + body)[1..] == body;
    ReadQuoted(s, rest);
  }

  /** The last item of an array, then its `]`. */
  lemma ReadLastItem(s: string, rest: string)
    ensures ReadItems(Quote(s) + ("]" + rest)) == Some(([s], rest))
  {
    ReadQuote(s, "]" + rest);
    assert ("]" + rest)[1..] == rest;
  }

  /** An item of an array, then a comma and the remaining items. */
  lemma ReadNextItem(s: string, tail: string, names: seq<string>, rest: string)
    requires ReadItems(tail) == Some((names, rest))
    ensures ReadItems(Quote(s) + ("," + tail)) == Some(([s] + names, rest))
  {
    ReadQuote(s, "," + tail);
    assert ("," + tail)[1..] == tail;
  }

  lemma Associate(a: string, b: string, c: string)
    ensures (a + b) + c == a + (b + c)
  {
  }

  lemma JoinQuotedSplit(names: seq<string>, rest: string)
    requires |names| > 1
    ensures Text.Join(Quoted(names), ',') + rest
         == Quote(names[0]) + ("," + (Text.Join(Quoted(names[1..]), ',') + rest))
  {
    var q := Quoted(names);
    var tail := Text.Join(Quoted(names[1..]), ',');
    assert q[0] == Quote(names[0]) && q[1..] == Quoted(names[1..]);
    assert Text.Join(q, ',') == (Quote(names[0]) + ",") + tail;
    Associate(Quote(names[0]) + ",", tail, rest);
    Associate(Quote(names[0]), ",", tail + rest);
  }

  /** The items of a non-empty array, then its `]`, read back as the names. */
  lemma {:induction false} ReadItemsJoin(names: seq<string>, rest: string)
    requires names != []
    ensures ReadItems(Text.Join(Quoted(names), ',') + ("]" + rest)) == Some((names, rest))
    decreases |names|
  {
    if |names| == 1 {
      assert Text.Join(Quoted(names), ',') == Quote(names[0]);
      ReadLastItem(names[0], rest);
      assert [names[0]] == names;
    } else {
      JoinQuotedSplit(names, "]" + rest);
      ReadItemsJoin(names[1..], rest);
      ReadNextItem(names[0], Text.Join(Quoted(names[1..]), ',') + ("]" + rest), names[1..], rest);
      assert [names[0]] + names[1..] == names;
    }
  }

  /** An array of strings reads back as its names. */
  lemma ReadStringList(names: seq<string>, rest: string)
    ensures ReadList(StringList(names) + rest) == Some((names, rest))
  {
    var t := StringList(names) + rest;
    if names == [] {
      assert t == "[]" + rest;
      assert t[..2] == "[]" && t[2..] == rest;
    } else {
      var body := Text.Join(Quoted(names), ',');
      assert Quoted(names)[0] == Quote(names[0]);
      assert body[0] == '"' by {
        if |names| > 1 {
          assert body == Quote(names[0]) + [','] + Text.Join(Quoted(names)[1..], ',');
        }
      }
      assert t[..2] != "[]" by {
        assert t[1] == body[0];
      }
      assert t[1..] == body + ("]" + rest);
      ReadItemsJoin(names, rest);
    }
  }

  lemma ExpectLiteral(lit: string, rest: string)
    ensures Expect(lit + rest, lit) == Some(rest)
  {
    assert (lit + rest)[..|lit|] == lit;
  }

  /** `ReadNameMap` reads back what `Stringify` wrote, and nothing is left over. */
  lemma ReadStringify(m: NameMap)
    ensures ReadNameMap(Stringify(m)) == Some((m, ""))
  {
    var t6 := "}";
    var t5 := StringList(m.bots) + t6;
    var t4 := BotsKey + t5;
    var t3 := StringList(m.collaborators) + t4;
    var t2 := CollaboratorsKey + t3;
    var t1 := StringList(m.contributors) + t2;
    ExpectLiteral(ContributorsKey, t1);
    ReadStringList(m.contributors, t2);
    ExpectLiteral(CollaboratorsKey, t3);
    ReadStringList(m.collaborators, t4);
    ExpectLiteral(BotsKey, t5);
    ReadStringList(m.bots, t6);
    ExpectLiteral("}", "");
    assert "}" + "" == "}";
  }

  /** Different name maps give different texts. */
  lemma StringifyInjective(m1: NameMap, m2: NameMap)
    requires Stringify(m1) == Stringify(m2)
    ensures m1 == m2
  {
    ReadStringify(m1);
    ReadStringify(m2);
  }

  // ---------------------------------------------------------------------------
  // Characters the writer never adds

  /**
   A character the writer adds only by copying it from a name: not a letter or
   digit (keys, short escapes and hex digits) and not JSON punctuation.
   */
  predicate Plain(c: char)
  {
    !('a' <= c <= 'z') && !('A' <= c <= 'Z') && !('0' <= c <= '9') && c !in "\"\\{}[],:"
  }

  /** No name of the map contains `c`. */
  predicate NamesAvoid(m: NameMap, c: char)
  {
    && (forall n | n in m.contributors :: c !in n)
    && (forall n | n in m.collaborators :: c !in n)
    && (forall n | n in m.bots :: c !in n)
  }

  lemma EscapeCharAvoids(x: char, c: char)
    requires Plain(c) && c != x
    ensures c !in EscapeChar(x)
  {
    if x < ' ' && x != '\U{8}' && x != '\t' && x != '\n' && x != '\U{C}' && x != '\r' {
      var hi, lo := x as int / 16, x as int % 16;
      assert hi == 0 || hi == 1;
      assert '0' <= HexDigits[lo] <= '9' || 'a' <= HexDigits[lo] <= 'f';
    }
  }

  lemma {:induction false} EscapeAvoids(s: string, c: char)
    requires Plain(c) && c !in s
    ensures c !in Escape(s)
    decreases |s|
  {
    if s != [] {
      EscapeCharAvoids(s[0], c);
      EscapeAvoids(s[1..], c);
    }
  }

  lemma {:induction false} QuotedAvoid(names: seq<string>, c: char)
    requires Plain(c)
    requires forall n | n in names :: c !in n
    ensures forall q | q in Quoted(names) :: c !in q
    decreases |names|
  {
    if names != [] {
      EscapeAvoids(names[0], c);
      QuotedAvoid(names[1..], c);
    }
  }

  lemma StringListAvoids(names: seq<string>, c: char)
    requires Plain(c)
    requires forall n | n in names :: c !in n
    ensures c !in StringList(names)
  {
    QuotedAvoid(names, c);
    Text.JoinAvoids(Quoted(names), ',', c);
  }

  /** A plain character appears in the written map only if some name holds it. */
  lemma StringifyAvoids(m: NameMap, c: char)
    requires Plain(c) && NamesAvoid(m, c)
    ensures c !in Stringify(m)
  {
    StringListAvoids(m.contributors, c);
    StringListAvoids(m.collaborators, c);
    StringListAvoids(m.bots, c);
    var tail := BotsKey + (StringList(m.bots) + "}");
    assert c !in tail;
    var middle := CollaboratorsKey + (StringList(m.collaborators) + tail);
    assert c !in middle;
    assert Stringify(m) == ContributorsKey + (StringList(m.contributors) + middle);
  }

  // ---------------------------------------------------------------------------
  // Characters the writer copies

  /** A character that `JSON.stringify` writes as itself. */
  predicate Copied(c: char)
  {
    c >= ' ' && c != '"' && c != '\\'
  }

  lemma {:induction false} EscapeKeeps(s: string, c: char)
    requires Copied(c) && c in s
    ensures c in Escape(s)
    decreases |s|
  {
    if s[0] == c {
      assert EscapeChar(c) == [c];
    } else {
      assert c in s[1..];
      EscapeKeeps(s[1..], c);
    }
  }

  lemma {:induction false} QuotedAt(names: seq<string>, k: nat)
    requires k < |names|
    ensures Quoted(names)[k] == Quote(names[k])
    decreases k
  {
    if k > 0 {
      QuotedAt(names[1..], k - 1);
    }
  }

  lemma StringListKeeps(names: seq<string>, n: string, c: char)
    requires Copied(c) && c in n && n in names
    ensures c in StringList(names)
  {
    var k :| 0 <= k < |names| && names[k] == n;
    QuotedAt(names, k);
    EscapeKeeps(n, c);
    assert c in Quote(n);
    Text.JoinKeeps(Quoted(names), ',', k, c);
  }

  /** A character written as itself appears in the JSON text whenever a name holds it. */
  lemma StringifyKeeps(m: NameMap, n: string, c: char)
    requires Copied(c) && c in n
    requires n in m.contributors || n in m.collaborators || n in m.bots
    ensures c in Stringify(m)
  {
    if n in m.contributors {
      StringListKeeps(m.contributors, n, c);
    } else if n in m.collaborators {
      StringListKeeps(m.collaborators, n, c);
    } else {
      StringListKeeps(m.bots, n, c);
    }
  }
}
