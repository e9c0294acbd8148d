/** The feed parse fallback chain of `parse_feed_with_fallback`
    (apps/umbreon-mobile/src/timeline.rs). The feed parser itself (feed_rs) and the
    lossy UTF-8 round trip (`String::from_utf8_lossy(..).as_bytes()`) are external
    and enter as function parameters. */
module FeedParse {
  import opened Wrappers
  import opened Search
  import opened Text

  newtype byte = x: int | 0 <= x < 256

  /** The bytes of an ASCII string (any wider character would become `?`). */
  function Ascii(s: string): (r: seq<byte>)
    ensures |r| == |s|
    ensures forall i :: 0 <= i < |s| && s[i] as int < 128 ==> r[i] as int == s[i] as int
  {
    seq(|s|, i requires 0 <= i < |s| => if s[i] as int < 128 then s[i] as int as byte else 0x3F)
  }

  /** The UTF-8 byte-order mark. */
  const Bom: seq<byte> := [0xEF, 0xBB, 0xBF]

  /** The byte `<`. */
  const Lt: byte := 0x3C

  /** The double-quoted pattern is a Rust raw string, so it holds a backslash before
      each quote: the 15 bytes `version=\"1.0\"`, backslashes included. */
  const DoubleQuotedFrom: seq<byte> := Ascii("version=\\\"1.0\\\"")
  const DoubleQuotedTo: seq<byte> := Ascii("version=\\\"2.0\\\"")
  const SingleQuotedFrom: seq<byte> := Ascii("version='1.0'")
  const SingleQuotedTo: seq<byte> := Ascii("version='2.0'")

  const NoXmlContent: string := "unable to parse feed: no xml content"
  const ParseFailedPrefix: string := "unable to parse feed: "

  predicate HasBom(bytes: seq<byte>) {
    |bytes| >= 3 && bytes[..3] == Bom
  }

  /** `strip_prefix(&[0xEF, 0xBB, 0xBF]).unwrap_or(bytes)`. */
  function StripBom(bytes: seq<byte>): (r: seq<byte>)
    ensures HasBom(bytes) ==> Bom + r == bytes
    ensures !HasBom(bytes) ==> r == bytes
  {
    if HasBom(bytes) then
      assert Bom + bytes[3..] == bytes;
      bytes[3..]
    else bytes
  }

  /** The two `replacen(.., 1)` calls of the fourth strategy. */
  function RewriteVersion(text: seq<byte>): seq<byte> {
    ReplaceFirst(ReplaceFirst(text, DoubleQuotedFrom, DoubleQuotedTo), SingleQuotedFrom, SingleQuotedTo)
  }

  /** The buffers the chain hands to the parser, in the order it tries them: the raw
      bytes, the BOM-stripped bytes, and, when a `<` exists, the suffix from the first
      `<` and that suffix with its version declaration rewritten. */
  function Attempts(lossy: seq<byte> -> seq<byte>, bytes: seq<byte>): (a: seq<seq<byte>>)
    ensures |a| == 2 || |a| == 4
    ensures a[0] == bytes && a[1] == StripBom(bytes)
    ensures |a| == 4 <==> Lt in StripBom(bytes)
    ensures |a| == 4 ==>
      var start := IndexOf(StripBom(bytes), Lt).value;
      && a[2] == StripBom(bytes)[start..]
      && a[3] == RewriteVersion(lossy(a[2]))
  {
    var trimmed := StripBom(bytes);
    match IndexOf(trimmed, Lt)
    case None => [bytes, trimmed]
    case Some(start) => [bytes, trimmed, trimmed[start..], RewriteVersion(lossy(trimmed[start..]))]
  }

  /** `parse_feed_with_fallback`: the first strategy whose buffer parses wins and no
      later strategy runs; the chain fails only when every attempted buffer fails,
      with the fixed "no xml content" message when the BOM-stripped bytes hold no `<`,
      and with the last parser error otherwise. */
  function ParseWithFallback<F>(parse: seq<byte> -> Result<F>, lossy: seq<byte> -> seq<byte>,
                                bytes: seq<byte>): (r: Result<F>)
    ensures parse(bytes).Ok? ==> r == parse(bytes)
    ensures var a := Attempts(lossy, bytes);
      r.Ok? ==> exists k :: 0 <= k < |a| && r == parse(a[k]) && forall j :: 0 <= j < k ==> parse(a[j]).Err?
    ensures var a := Attempts(lossy, bytes);
      r.Err? <==> forall k :: 0 <= k < |a| ==> parse(a[k]).Err?
    ensures var a := Attempts(lossy, bytes);
      r.Err? ==> r.error == if |a| == 2 then NoXmlContent else ParseFailedPrefix + parse(a[3]).error
  {
    var a := Attempts(lossy, bytes);
    if parse(bytes).Ok? then
      FirstWins(parse, a, 0);
      parse(bytes)
    else
      var trimmed := StripBom(bytes);
      if parse(trimmed).Ok? then
        FirstWins(parse, a, 1);
        parse(trimmed)
      else
        match IndexOf(trimmed, Lt)
        case None => Err(NoXmlContent)
        case Some(start) =>
          var body := trimmed[start..];
          if parse(body).Ok? then
            FirstWins(parse, a, 2);
            parse(body)
          else
            var last := parse(RewriteVersion(lossy(body)));
            assert last == parse(a[3]);
            if last.Ok? then
              FirstWins(parse, a, 3);
              last
            else
              Err(ParseFailedPrefix + last.error)
  }

  /** A buffer that parses after every earlier one failed is where the chain stops. */
  lemma FirstWins<F>(parse: seq<byte> -> Result<F>, a: seq<seq<byte>>, k: nat)
    requires k < |a| && parse(a[k]).Ok?
    requires forall j :: 0 <= j < k ==> parse(a[j]).Err?
    ensures exists i :: 0 <= i < |a| && parse(a[k]) == parse(a[i]) && forall j :: 0 <= j < i ==> parse(a[j]).Err?
    ensures exists i :: 0 <= i < |a| && parse(a[i]).Ok?
  {
  }

  /** The version rewrite keeps the length and changes at most two bytes: the `1` of
      the first double-quoted pattern and the `1` of the first single-quoted pattern
      that remains afterwards. Every other occurrence is left alone. */
  lemma RewriteVersionTouchesAtMostTwoBytes(text: seq<byte>)
    ensures var mid := ReplaceFirst(text, DoubleQuotedFrom, DoubleQuotedTo);
      var r := RewriteVersion(text);
      && |r| == |text|
      && forall i :: 0 <= i < |text|
           && (Find(text, DoubleQuotedFrom).None? || i != Find(text, DoubleQuotedFrom).value + 10)
           && (Find(mid, SingleQuotedFrom).None? || i != Find(mid, SingleQuotedFrom).value + 9)
           ==> r[i] == text[i]
  {
    var mid := ReplaceFirst(text, DoubleQuotedFrom, DoubleQuotedTo);
    DoubleQuotedPatternsDiffer();
    SingleQuotedPatternsDiffer();
    ReplaceFirstSpot(text, DoubleQuotedFrom, DoubleQuotedTo, 10);
    ReplaceFirstSpot(mid, SingleQuotedFrom, SingleQuotedTo, 9);
  }

  /** The double-quoted patterns differ only in the major version digit. */
  lemma DoubleQuotedPatternsDiffer()
    ensures |DoubleQuotedFrom| == |DoubleQuotedTo| == 15
    ensures forall i :: 0 <= i < 15 && i != 10 ==> DoubleQuotedFrom[i] == DoubleQuotedTo[i]
  {
    forall i | 0 <= i < 15 && i != 10 ensures DoubleQuotedFrom[i] == DoubleQuotedTo[i] {
      assert "version=\\\"1.0\\\""[i] == "version=\\\"2.0\\\""[i];
    }
  }

  /** The single-quoted patterns differ only in the major version digit. */
  lemma SingleQuotedPatternsDiffer()
    ensures |SingleQuotedFrom| == |SingleQuotedTo| == 13
    ensures forall i :: 0 <= i < 13 && i != 9 ==> SingleQuotedFrom[i] == SingleQuotedTo[i]
  {
    forall i | 0 <= i < 13 && i != 9 ensures SingleQuotedFrom[i] == SingleQuotedTo[i] {
      assert "version='1.0'"[i] == "version='2.0'"[i];
    }
  }

  /** Replacing the first occurrence of a pattern by one of equal length that differs
      only at offset `d` changes only that one position. */
  lemma ReplaceFirstSpot(s: seq<byte>, pat: seq<byte>, rep: seq<byte>, d: nat)
    requires |pat| == |rep| && d < |pat|
    requires forall i :: 0 <= i < |pat| && i != d ==> pat[i] == rep[i]
    ensures |ReplaceFirst(s, pat, rep)| == |s|
    ensures forall i :: 0 <= i < |s| && (Find(s, pat).None? || i != Find(s, pat).value + d)
               ==> ReplaceFirst(s, pat, rep)[i] == s[i]
  {
    var r := ReplaceFirst(s, pat, rep);
    match Find(s, pat)
    case None =>
    case Some(p) =>
      forall i | 0 <= i < |s| && i != p + d ensures r[i] == s[i] {
        if i < p {
          assert r[..p][i] == s[..p][i];
        } else if i < p + |pat| {
          assert r[p..p + |rep|][i - p] == rep[i - p];
          assert s[p..p + |pat|][i - p] == pat[i - p];
        } else {
          assert r[p + |rep|..][i - p - |rep|] == s[p + |pat|..][i - p - |pat|];
        }
      }
  }

  /** A pattern holding a byte the text lacks never occurs in it. */
  lemma AbsentByteNoMatch(s: seq<byte>, pat: seq<byte>, k: nat)
    requires k < |pat| && pat[k] !in s
    ensures Find(s, pat).None?
  {
    forall j ensures !OccursAt(s, pat, j) {
      if 0 <= j && j + |pat| <= |s| {
        assert s[j..j + |pat|][k] == s[j + k];
        assert s[j + k] in s;
      }
    }
  }

  /** As written, the double-quoted pattern demands backslashes, so an ordinary
      declaration `version="1.0"` is not rewritten by the first `replacen`. */
  lemma PlainDoubleQuotedDeclarationIsKept()
    ensures var decl := Ascii("<rss version=\"1.0\">");
      ReplaceFirst(decl, DoubleQuotedFrom, DoubleQuotedTo) == decl
  {
    var decl := Ascii("<rss version=\"1.0\">");
    assert DoubleQuotedFrom[8] == 0x5C;
    assert forall i :: 0 <= i < |decl| ==> decl[i] != 0x5C;
    AbsentByteNoMatch(decl, DoubleQuotedFrom, 8);
  }

  lemma SingleQuotedDeclarationFound()
    ensures Find(Ascii("<rss version='1.0'>"), SingleQuotedFrom) == Some(5)
  {
    var decl := Ascii("<rss version='1.0'>");
    forall i | 0 <= i < |SingleQuotedFrom| ensures decl[5 + i] == SingleQuotedFrom[i] {
      assert "<rss version='1.0'>"[5 + i] == "version='1.0'"[i];
    }
    assert decl[5..5 + |SingleQuotedFrom|] == SingleQuotedFrom;
    assert OccursAt(decl, SingleQuotedFrom, 5);
    assert SingleQuotedFrom[0] as int == 'v' as int;
    forall j | 0 <= j < 5 ensures !OccursAt(decl, SingleQuotedFrom, j) {
      assert "<rss version='1.0'>"[j] != 'v';
      assert decl[j] != SingleQuotedFrom[0];
      assert decl[j..j + |SingleQuotedFrom|][0] == decl[j];
    }
  }

  lemma SingleQuotedDeclarationHasNoDoubleQuotedPattern()
    ensures var decl := Ascii("<rss version='1.0'>");
      ReplaceFirst(decl, DoubleQuotedFrom, DoubleQuotedTo) == decl
  {
    var decl := Ascii("<rss version='1.0'>");
    assert DoubleQuotedFrom[8] == 0x5C;
    assert forall i :: 0 <= i < |decl| ==> decl[i] != 0x5C;
    AbsentByteNoMatch(decl, DoubleQuotedFrom, 8);
  }

  lemma SingleQuotedDeclarationReplaced()
    ensures ReplaceFirst(Ascii("<rss version='1.0'>"), SingleQuotedFrom, SingleQuotedTo)
            == Ascii("<rss version='2.0'>")
  {
    var decl := Ascii("<rss version='1.0'>");
    var out := Ascii("<rss version='2.0'>");
    SingleQuotedDeclarationFound();
    var built := decl[..5] + SingleQuotedTo + decl[18..];
    assert ReplaceFirst(decl, SingleQuotedFrom, SingleQuotedTo) == built;
    forall i | 0 <= i < |out| ensures built[i] == out[i] {
      if i < 5 {
      } else if i < 18 {
        assert built[i] == SingleQuotedTo[i - 5];
      } else {
        assert built[i] == decl[i];
      }
    }
    assert built == out;
  }

  /** A single-quoted declaration is rewritten to version 2.0. */
  lemma SingleQuotedDeclarationIsRewritten()
    ensures RewriteVersion(Ascii("<rss version='1.0'>")) == Ascii("<rss version='2.0'>")
  {
    SingleQuotedDeclarationHasNoDoubleQuotedPattern();
    SingleQuotedDeclarationReplaced();
  }
}
