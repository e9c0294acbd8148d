/** The two text encoders of workers/feed-aggregator-worker/src/index.ts: `escapeXml`,
    which writes the five predefined entities of section 4.6 of XML 1.0, and
    `cdata`, which wraps text in CDATA sections (section 2.7 of XML 1.0), splitting a
    section wherever the text holds the `]]>` that would end it. */
module Xml {
  import opened Wrappers
  import opened Text
  import Search

  // ---------------------------------------------------------------- entities

  /** `s.replace(/c/g, rep)` for a single-character pattern. */
  function ReplaceChar(s: string, c: char, rep: string): (r: string)
    ensures c !in s ==> r == s
    decreases |s|
  {
    if |s| == 0 then "" else (if s[0] == c then rep else [s[0]]) + ReplaceChar(s[1..], c, rep)
  }

  /** The character rewrite is the general left-to-right replacement with a
      one-character pattern. */
  lemma {:induction false} ReplaceCharIsReplaceAll(s: string, c: char, rep: string)
    ensures ReplaceChar(s, c, rep) == Search.ReplaceAll(s, [c], rep)
    decreases |s|
  {
    match Search.Find(s, [c])
    case None =>
      assert c !in s by {
        forall j | 0 <= j < |s| ensures s[j] != c {
          assert !Search.OccursAt(s, [c], j);
          assert s[j..j + 1] == [s[j]];
        }
      }
    case Some(i) =>
      assert s[i..i + 1] == [c];
      assert c !in s[..i] by {
        forall j | 0 <= j < i ensures s[..i][j] != c {
          assert !Search.OccursAt(s, [c], j);
          assert s[j..j + 1] == [s[j]];
        }
      }
      assert s == s[..i] + ([c] + s[i + 1..]);
      ReplaceCharAppend(s[..i], [c] + s[i + 1..], c, rep);
      ReplaceCharAppend([c], s[i + 1..], c, rep);
      assert ReplaceChar([c], c, rep) == rep + ReplaceChar([c][1..], c, rep);
      assert [c][1..] == [];
      ReplaceCharIsReplaceAll(s[i + 1..], c, rep);
  }

  lemma {:induction false} ReplaceCharAppend(a: string, b: string, c: char, rep: string)
    ensures ReplaceChar(a + b, c, rep) == ReplaceChar(a, c, rep) + ReplaceChar(b, c, rep)
    decreases |a|
  {
    if |a| > 0 {
      var head := if a[0] == c then rep else [a[0]];
      assert (a + b)[0] == a[0] && (a + b)[1..] == a[1..] + b;
      assert ReplaceChar(a + b, c, rep) == head + ReplaceChar(a[1..] + b, c, rep);
      ReplaceCharAppend(a[1..], b, c, rep);
      assert ReplaceChar(a, c, rep) == head + ReplaceChar(a[1..], c, rep);
      Assoc(head, ReplaceChar(a[1..], c, rep), ReplaceChar(b, c, rep));
    } else {
      assert a + b == b;
    }
  }

  /** `escapeXml`: five global replacements, the ampersand first. */
  function EscapeXml(s: string): string {
    var amp := ReplaceChar(s, '&', "&amp;");
    var lt := ReplaceChar(amp, '<', "&lt;");
    var gt := ReplaceChar(lt, '>', "&gt;");
    var quot := ReplaceChar(gt, '"', "&quot;");
    ReplaceChar(quot, '\'', "&apos;")
  }

  /** The entity written for one character, or the character itself. */
  function EscapeChar(c: char): string {
    if c == '&' then "&amp;"
    else if c == '<' then "&lt;"
    else if c == '>' then "&gt;"
    else if c == '"' then "&quot;"
    else if c == '\'' then "&apos;"
    else [c]
  }

  /** Character-by-character escaping, the reference the chain of replacements is
      measured against. */
  function EscapeEach(s: string): string
    decreases |s|
  {
    if |s| == 0 then "" else EscapeChar(s[0]) + EscapeEach(s[1..])
  }

  lemma EscapeXmlAppend(a: string, b: string)
    ensures EscapeXml(a + b) == EscapeXml(a) + EscapeXml(b)
  {
    ReplaceCharAppend(a, b, '&', "&amp;");
    var a1, b1 := ReplaceChar(a, '&', "&amp;"), ReplaceChar(b, '&', "&amp;");
    ReplaceCharAppend(a1, b1, '<', "&lt;");
    var a2, b2 := ReplaceChar(a1, '<', "&lt;"), ReplaceChar(b1, '<', "&lt;");
    ReplaceCharAppend(a2, b2, '>', "&gt;");
    var a3, b3 := ReplaceChar(a2, '>', "&gt;"), ReplaceChar(b2, '>', "&gt;");
    ReplaceCharAppend(a3, b3, '"', "&quot;");
    var a4, b4 := ReplaceChar(a3, '"', "&quot;"), ReplaceChar(b3, '"', "&quot;");
    ReplaceCharAppend(a4, b4, '\'', "&apos;");
  }

  /** No later replacement touches what an earlier one wrote, so one character
      escapes to its own entity. */
  lemma EscapeXmlChar(c: char)
    ensures EscapeXml([c]) == EscapeChar(c)
  {
    assert '<' !in "&amp;" && '>' !in "&amp;" && '"' !in "&amp;" && '\'' !in "&amp;";
    assert '>' !in "&lt;" && '"' !in "&lt;" && '\'' !in "&lt;";
    assert '"' !in "&gt;" && '\'' !in "&gt;";
    assert '\'' !in "&quot;";
    assert ReplaceChar([c], c, EscapeChar(c)) == EscapeChar(c) + ReplaceChar([c][1..], c, EscapeChar(c));
  }

  /** Replacing the ampersand first makes the chain of replacements an escaping of
      each character on its own: nothing is escaped twice. */
  lemma {:induction false} EscapeXmlIsPerChar(s: string)
    ensures EscapeXml(s) == EscapeEach(s)
    decreases |s|
  {
    if |s| > 0 {
      assert s == [s[0]] + s[1..];
      EscapeXmlAppend([s[0]], s[1..]);
      EscapeXmlChar(s[0]);
      EscapeXmlIsPerChar(s[1..]);
    }
  }

  /** An ampersand at `i` starts one of the five entity references. */
  predicate EntityAt(s: string, i: nat)
    requires i <= |s|
  {
    var t := s[i..];
    StartsWith(t, "&amp;") || StartsWith(t, "&lt;") || StartsWith(t, "&gt;")
    || StartsWith(t, "&quot;") || StartsWith(t, "&apos;")
  }

  /** Text safe inside an element or a quoted attribute: no markup character and no
      bare ampersand. */
  predicate Escaped(s: string) {
    forall i :: 0 <= i < |s| ==>
      && s[i] != '<' && s[i] != '>' && s[i] != '"' && s[i] != '\''
      && (s[i] == '&' ==> EntityAt(s, i))
  }

  lemma EscapedAppend(a: string, b: string)
    requires Escaped(a) && Escaped(b)
    requires forall i :: 0 <= i < |a| && a[i] == '&' ==> i == 0
    ensures Escaped(a + b)
  {
    var s := a + b;
    forall i | 0 <= i < |s| && s[i] == '&' ensures EntityAt(s, i) {
      if i < |a| {
        assert i == 0 && s[0..] == a + b && a[0..] == a;
        assert forall e :: StartsWith(a, e) ==> StartsWith(a + b, e) by {
          forall e | StartsWith(a, e) ensures StartsWith(a + b, e) {
            assert (a + b)[..|e|] == a[..|e|];
          }
        }
      } else {
        assert b[i - |a|] == '&' && EntityAt(b, i - |a|);
        assert s[i..] == b[i - |a|..];
      }
    }
  }

  /** One escaped character is escaped text, with an ampersand only in front. */
  lemma EscapeCharEscaped(c: char)
    ensures Escaped(EscapeChar(c))
    ensures forall i :: 0 <= i < |EscapeChar(c)| && EscapeChar(c)[i] == '&' ==> i == 0
  {
    if c == '&' || c == '<' || c == '>' || c == '"' || c == '\'' {
      EntityEscaped(EscapeChar(c));
    }
  }

  lemma EntityEscaped(e: string)
    requires e == "&amp;" || e == "&lt;" || e == "&gt;" || e == "&quot;" || e == "&apos;"
    ensures Escaped(e)
    ensures forall i :: 0 <= i < |e| && e[i] == '&' ==> i == 0
  {
    assert e[0..] == e;
  }

  lemma {:induction false} EscapeEachEscaped(s: string)
    ensures Escaped(EscapeEach(s))
    decreases |s|
  {
    if |s| > 0 {
      EscapeEachEscaped(s[1..]);
      EscapeCharEscaped(s[0]);
      EscapedAppend(EscapeChar(s[0]), EscapeEach(s[1..]));
    }
  }

  /** `escapeXml` writes no markup character, and every ampersand it writes starts
      an entity reference. */
  lemma EscapeXmlEscaped(s: string)
    ensures Escaped(EscapeXml(s))
  {
    EscapeXmlIsPerChar(s);
    EscapeEachEscaped(s);
  }

  /** What an XML reader makes of escaped text: each of the five references becomes
      its character. */
  function Unescape(s: string): string
    decreases |s|
  {
    if |s| == 0 then ""
    else if s[0] != '&' then [s[0]] + Unescape(s[1..])
    else if StartsWith(s, "&amp;") then "&" + Unescape(s[5..])
    else if StartsWith(s, "&lt;") then "<" + Unescape(s[4..])
    else if StartsWith(s, "&gt;") then ">" + Unescape(s[4..])
    else if StartsWith(s, "&quot;") then "\"" + Unescape(s[6..])
    else if StartsWith(s, "&apos;") then "'" + Unescape(s[6..])
    else [s[0]] + Unescape(s[1..])
  }

  lemma UnescapeStep(c: char, rest: string)
    ensures Unescape(EscapeChar(c) + rest) == [c] + Unescape(rest)
  {
    var e := EscapeChar(c);
    var t := e + rest;
    assert t[..|e|] == e && t[|e|..] == rest;
    if c == '&' {
      assert StartsWith(t, "&amp;");
    } else if c == '<' {
      assert !StartsWith(t, "&amp;") by { assert t[1] != "&amp;"[1]; }
      assert StartsWith(t, "&lt;");
    } else if c == '>' {
      assert !StartsWith(t, "&amp;") && !StartsWith(t, "&lt;") by { assert t[1] == 'g'; }
      assert StartsWith(t, "&gt;");
    } else if c == '"' {
      assert !StartsWith(t, "&amp;") && !StartsWith(t, "&lt;") && !StartsWith(t, "&gt;")
        by { assert t[1] == 'q'; }
      assert StartsWith(t, "&quot;");
    } else if c == '\'' {
      assert !StartsWith(t, "&amp;") && !StartsWith(t, "&lt;") && !StartsWith(t, "&gt;")
        && !StartsWith(t, "&quot;") by { assert t[1] == 'a' && t[2] == 'p'; }
      assert StartsWith(t, "&apos;");
    } else {
      assert t[0] == c && t[1..] == rest;
    }
  }

  lemma {:induction false} UnescapeEach(s: string)
    ensures Unescape(EscapeEach(s)) == s
    decreases |s|
  {
    if |s| > 0 {
      UnescapeStep(s[0], EscapeEach(s[1..]));
      UnescapeEach(s[1..]);
    }
  }

  /** A reader gets back exactly the text that was escaped. */
  lemma EscapeXmlRoundTrip(s: string)
    ensures Unescape(EscapeXml(s)) == s
  {
    EscapeXmlIsPerChar(s);
    UnescapeEach(s);
  }

  // ---------------------------------------------------------------- CDATA

  const CDataOpen: string := "<![CDATA["
  const CDataClose: string := "]]>"

  /** `value.replace(/]]>/g, "]]]]><![CDATA[>")`: close the section after `]]` and
      open a new one before `>`. */
  function SplitTerminators(s: string): string
    decreases |s|
  {
    if |s| < 3 then s
    else if s[..3] == CDataClose then "]]" + (CDataClose + (CDataOpen + (">" + SplitTerminators(s[3..]))))
    else [s[0]] + SplitTerminators(s[1..])
  }

  /** `cdata`: nothing for empty text, else one or more CDATA sections. */
  function CData(v: string): (r: string)
    ensures v == "" <==> r == ""
  {
    if v == "" then "" else CDataOpen + SplitTerminators(v) + CDataClose
  }

  /** `]]>` occurs at `i`. */
  predicate CloseAt(s: string, i: nat)
    requires i + 3 <= |s|
  {
    s[i] == ']' && s[i + 1] == ']' && s[i + 2] == '>'
  }

  /** Text that may stand inside one section: `]]>` does not occur in it. */
  predicate NoTerminator(s: string) {
    forall i :: 0 <= i && i + 3 <= |s| ==> !CloseAt(s, i)
  }

  /** A reader ends a section at the first `]]>`; after text with none, that is the
      closing one, since the two characters before its `>` are both `]`. */
  lemma SectionEndsAtClose(s: string)
    requires NoTerminator(s)
    ensures forall i :: 0 <= i < |s| ==> !CloseAt(s + CDataClose, i)
  {
    var t := s + CDataClose;
    forall i | 0 <= i < |s| ensures !CloseAt(t, i) {
      if i + 3 <= |s| {
        assert !CloseAt(s, i);
      } else {
        assert t[i + 2] == ']';
      }
    }
  }

  /** The contents of the sections `cdata` writes, in order. */
  function Sections(s: string): (r: seq<string>)
    ensures |r| >= 1
    decreases |s|
  {
    if |s| < 3 then [s]
    else if s[..3] == CDataClose then ["]]"] + Prepend('>', Sections(s[3..]))
    else Prepend(s[0], Sections(s[1..]))
  }

  function Prepend(c: char, parts: seq<string>): (r: seq<string>)
    requires |parts| >= 1
    ensures |r| == |parts| >= 1
  {
    [[c] + parts[0]] + parts[1..]
  }

  function Concat(parts: seq<string>): string
    decreases |parts|
  {
    if |parts| == 0 then "" else parts[0] + Concat(parts[1..])
  }

  /** The sections written one after another. */
  function Wrap(parts: seq<string>): string
    decreases |parts|, 1
  {
    if |parts| == 0 then "" else CDataOpen + Inner(parts)
  }

  /** The sections after the first opening: the first content, its close, and the
      other sections. */
  function Inner(parts: seq<string>): string
    requires |parts| >= 1
    decreases |parts|, 0
  {
    parts[0] + (CDataClose + Wrap(parts[1..]))
  }

  lemma ConcatPrepend(c: char, parts: seq<string>)
    requires |parts| >= 1
    ensures Concat(Prepend(c, parts)) == [c] + Concat(parts)
  {
    var p := Prepend(c, parts);
    assert p[0] == [c] + parts[0] && p[1..] == parts[1..];
    assert Concat(p) == ([c] + parts[0]) + Concat(parts[1..]);
    ConsAssoc(c, parts[0], Concat(parts[1..]));
  }

  lemma InnerPrepend(c: char, parts: seq<string>)
    requires |parts| >= 1
    ensures Inner(Prepend(c, parts)) == [c] + Inner(parts)
  {
    var p := Prepend(c, parts);
    var x := CDataClose + Wrap(parts[1..]);
    assert p[0] == [c] + parts[0] && p[1..] == parts[1..];
    assert Inner(p) == ([c] + parts[0]) + x;
    ConsAssoc(c, parts[0], x);
  }

  lemma ConsAssoc(c: char, a: string, b: string)
    ensures ([c] + a) + b == [c] + (a + b)
  {
    Assoc([c], a, b);
  }

  lemma Assoc(a: string, b: string, c: string)
    ensures (a + b) + c == a + (b + c)
  {
  }

  /** The first section's content starts the text. */
  lemma {:induction false} SectionsHead(s: string)
    ensures |Sections(s)[0]| <= |s| && Sections(s)[0] == s[..|Sections(s)[0]|]
    decreases |s|
  {
    if |s| >= 3 && s[..3] != CDataClose {
      SectionsHead(s[1..]);
    }
  }

  /** Splitting at each `]]>` and prepending `>` to the next section gives back the
      text when the sections are read in order. */
  lemma {:induction false} SectionsConcat(s: string)
    ensures Concat(Sections(s)) == s
    decreases |s|
  {
    if |s| >= 3 {
      if s[..3] == CDataClose {
        SectionsConcat(s[3..]);
        SectionsAtClose(s);
      } else {
        SectionsConcat(s[1..]);
        ConcatPrepend(s[0], Sections(s[1..]));
        assert s == [s[0]] + s[1..];
      }
    } else {
      assert Concat([s]) == s + Concat([]);
    }
  }

  /** The step of `SectionsConcat` at a `]]>`: the split puts it back together. */
  lemma SectionsAtClose(s: string)
    requires |s| >= 3 && s[..3] == CDataClose
    requires Concat(Sections(s[3..])) == s[3..]
    ensures Concat(Sections(s)) == s
  {
    var p := Prepend('>', Sections(s[3..]));
    ConcatPrepend('>', Sections(s[3..]));
    assert Sections(s) == ["]]"] + p;
    assert (["]]"] + p)[0] == "]]" && (["]]"] + p)[1..] == p;
    assert Concat(Sections(s)) == "]]" + (">" + s[3..]);
    Assoc("]]", ">", s[3..]);
    assert s == s[..3] + s[3..];
  }

  /** No section `cdata` writes holds `]]>`, so each ends at its own close. */
  lemma {:induction false} SectionsHaveNoTerminator(s: string)
    ensures forall k :: 0 <= k < |Sections(s)| ==> NoTerminator(Sections(s)[k])
    decreases |s|
  {
    if |s| >= 3 {
      if s[..3] == CDataClose {
        var rest := Sections(s[3..]);
        SectionsHaveNoTerminator(s[3..]);
        var first := ['>'] + rest[0];
        forall i | 0 <= i && i + 3 <= |first| ensures !CloseAt(first, i) {
          if i > 0 {
            assert !CloseAt(rest[0], i - 1);
          }
        }
        assert Sections(s)[1..] == Prepend('>', rest);
      } else {
        var rest := Sections(s[1..]);
        SectionsHaveNoTerminator(s[1..]);
        SectionsHead(s[1..]);
        var first := [s[0]] + rest[0];
        forall i | 0 <= i && i + 3 <= |first| ensures !CloseAt(first, i) {
          if i > 0 {
            assert !CloseAt(rest[0], i - 1);
          } else {
            assert rest[0][0] == s[1] && rest[0][1] == s[2];
            assert s[..3] != CDataClose;
          }
        }
        assert forall k :: 1 <= k < |Sections(s)| ==> Sections(s)[k] == rest[k];
      }
    } else {
      assert Sections(s) == [s];
    }
  }

  /** After the first opening, `cdata` writes the sections' contents, each followed
      by its close and the next opening. */
  lemma {:induction false} CDataIsSections(s: string)
    ensures SplitTerminators(s) + CDataClose == Inner(Sections(s))
    decreases |s|
  {
    if |s| < 3 {
      assert Inner([s]) == s + (CDataClose + Wrap([]));
    } else if s[..3] == CDataClose {
      CDataIsSections(s[3..]);
      SplitAtClose(s);
    } else {
      CDataIsSections(s[1..]);
      SplitAtOther(s);
    }
  }

  /** The step of `CDataIsSections` at a `]]>`: close after `]]`, reopen before `>`. */
  lemma SplitAtClose(s: string)
    requires |s| >= 3 && s[..3] == CDataClose
    requires SplitTerminators(s[3..]) + CDataClose == Inner(Sections(s[3..]))
    ensures SplitTerminators(s) + CDataClose == Inner(Sections(s))
  {
    var t := SplitTerminators(s[3..]);
    var rest := Sections(s[3..]);
    var p := Prepend('>', rest);
    assert Sections(s)[0] == "]]" && Sections(s)[1..] == p;
    InnerPrepend('>', rest);
    assert Inner(Sections(s)) == "]]" + (CDataClose + (CDataOpen + (">" + (t + CDataClose))));
    Assoc(">", t, CDataClose);
    Assoc(CDataOpen, ">" + t, CDataClose);
    Assoc(CDataClose, CDataOpen + (">" + t), CDataClose);
    Assoc("]]", CDataClose + (CDataOpen + (">" + t)), CDataClose);
  }

  /** The step of `CDataIsSections` at any other character: it joins the first
      section. */
  lemma SplitAtOther(s: string)
    requires |s| >= 3 && s[..3] != CDataClose
    requires SplitTerminators(s[1..]) + CDataClose == Inner(Sections(s[1..]))
    ensures SplitTerminators(s) + CDataClose == Inner(Sections(s))
  {
    InnerPrepend(s[0], Sections(s[1..]));
    ConsAssoc(s[0], SplitTerminators(s[1..]), CDataClose);
  }

  /** `cdata` of non-empty text: sections whose contents hold no `]]>` and, read in
      order, give back the text. */
  lemma CDataRoundTrip(v: string)
    requires v != ""
    ensures CData(v) == Wrap(Sections(v))
    ensures Concat(Sections(v)) == v
    ensures forall k :: 0 <= k < |Sections(v)| ==> NoTerminator(Sections(v)[k])
  {
    CDataIsSections(v);
    assert CData(v) == CDataOpen + (SplitTerminators(v) + CDataClose);
    SectionsConcat(v);
    SectionsHaveNoTerminator(v);
  }

  // ---------------------------------------------------------------- reading CDATA

  /** Where the first `]]>` of `s` starts, or `|s|` when there is none. */
  function CloseIndex(s: string): (n: nat)
    ensures n <= |s|
    ensures n + 3 <= |s| ==> CloseAt(s, n)
    ensures n + 3 > |s| ==> n == |s|
    decreases |s|
  {
    if |s| < 3 then |s| else if s[..3] == CDataClose then 0 else 1 + CloseIndex(s[1..])
  }

  /** After text holding no `]]>`, the first `]]>` is the one written after it. */
  lemma {:induction false} CloseIndexAfter(a: string, rest: string)
    requires NoTerminator(a)
    ensures CloseIndex(a + (CDataClose + rest)) == |a|
    decreases |a|
  {
    var s := a + (CDataClose + rest);
    if |a| > 0 {
      assert s[..3] != CDataClose by {
        if |a| >= 3 {
          assert !CloseAt(a, 0);
          assert s[..3] == a[..3];
        } else {
          assert s[2] == ']';
        }
      }
      assert NoTerminator(a[1..]) by {
        forall i | 0 <= i && i + 3 <= |a[1..]| ensures !CloseAt(a[1..], i) {
          assert !CloseAt(a, i + 1);
        }
      }
      assert s[1..] == a[1..] + (CDataClose + rest);
      CloseIndexAfter(a[1..], rest);
    }
  }

  /** Reads consecutive CDATA sections, each up to its first `]]>`: the text they
      hold together, and what follows the last of them. */
  function ReadCData(s: string): (r: Option<(string, string)>)
    ensures r.Some? ==> |r.value.1| < |s|
    decreases |s|
  {
    match StripPrefix(s, CDataOpen)
    case None => None
    case Some(body) =>
      var n := CloseIndex(body);
      if |body| < n + 3 then None
      else
        var after := body[n + 3..];
        if StartsWith(after, CDataOpen) then
          match ReadCData(after)
          case None => None
          case Some((more, rest)) => Some((body[..n] + more, rest))
        else Some((body[..n], after))
  }

  /** Sections whose contents hold no `]]>` read back as their contents, in order. */
  lemma {:induction false} ReadWrapped(parts: seq<string>, rest: string)
    requires |parts| >= 1
    requires forall k :: 0 <= k < |parts| ==> NoTerminator(parts[k])
    requires !StartsWith(rest, CDataOpen)
    ensures ReadCData(Wrap(parts) + rest) == Some((Concat(parts), rest))
    decreases |parts|
  {
    var next := Wrap(parts[1..]);
    var tail := next + rest;
    var body := parts[0] + (CDataClose + tail);
    calc {
      Wrap(parts) + rest;
      (CDataOpen + (parts[0] + (CDataClose + next))) + rest;
      { Assoc(CDataOpen, parts[0] + (CDataClose + next), rest); }
      CDataOpen + ((parts[0] + (CDataClose + next)) + rest);
      { Assoc(parts[0], CDataClose + next, rest); Assoc(CDataClose, next, rest); }
      CDataOpen + body;
    }
    StripPrefixOf(CDataOpen, body);
    CloseIndexAfter(parts[0], tail);
    assert body[..|parts[0]|] == parts[0];
    assert body[|parts[0]| + 3..] == tail;
    if |parts| == 1 {
      assert tail == rest;
      assert Concat(parts) == parts[0] + Concat(parts[1..]);
      assert parts[0] + "" == parts[0];
    } else {
      assert StartsWith(tail, CDataOpen) by {
        assert next == CDataOpen + Inner(parts[1..]);
        Assoc(CDataOpen, Inner(parts[1..]), rest);
        StripPrefixOf(CDataOpen, Inner(parts[1..]) + rest);
      }
      ReadWrapped(parts[1..], rest);
    }
  }

  /** What `cdata` writes for non-empty text reads back as that text, provided no
      further section follows. */
  lemma CDataReadsBack(v: string, rest: string)
    requires v != ""
    requires !StartsWith(rest, CDataOpen)
    ensures ReadCData(CData(v) + rest) == Some((v, rest))
  {
    CDataRoundTrip(v);
    ReadWrapped(Sections(v), rest);
  }
}
