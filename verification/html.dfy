/** The two local text helpers of the summariser (apps/umbreon-mobile/src/timeline.rs):
    `plain_text_from_html`, which drops everything between `<` and `>` and collapses
    whitespace, and `fallback_summary`, the 140-character excerpt. */
module Html {
  import opened Text

  /** Rust's whitespace class as a function value. */
  const Space: char -> bool := IsRustSpace

  /** The character loop of `plain_text_from_html`: `<` opens a tag, `>` closes one,
      and only characters outside tags are kept; the markers themselves never are. */
  function StripTags(s: string, inTag: bool): (r: string)
    ensures '<' !in r && '>' !in r
    ensures forall i :: 0 <= i < |r| ==> r[i] in s
    decreases |s|
  {
    if |s| == 0 then []
    else
      var rest := StripTags(s[1..], s[0] == '<' || (inTag && s[0] != '>'));
      assert forall i :: 0 <= i < |rest| ==> rest[i] in s by {
        assert forall c :: c in s[1..] ==> c in s;
      }
      if s[0] == '<' || s[0] == '>' || inTag then rest else [s[0]] + rest
  }

  /** Text with no tag markers passes through the tag loop unchanged. */
  lemma {:induction false} StripTagsKeepsPlainText(s: string)
    requires '<' !in s && '>' !in s
    ensures StripTags(s, false) == s
    decreases |s|
  {
    if |s| > 0 {
      assert '<' !in s[1..] && '>' !in s[1..] by {
        assert forall c :: c in s[1..] ==> c in s;
      }
      StripTagsKeepsPlainText(s[1..]);
      assert s == [s[0]] + s[1..];
    }
  }

  /** A word of `split_whitespace`: non-empty and free of whitespace. */
  predicate IsWord(w: string) {
    |w| > 0 && forall i :: 0 <= i < |w| ==> !Space(w[i])
  }

  /** `split_whitespace`: the maximal runs of non-whitespace characters, in order. */
  function Words(s: string): (r: seq<string>)
    ensures forall i :: 0 <= i < |r| ==> IsWord(r[i])
    ensures forall i, j :: 0 <= i < |r| && 0 <= j < |r[i]| ==> r[i][j] in s
    ensures |s| > 0 && !Space(s[0]) ==> |r| > 0 && |r[0]| > 0 && r[0][0] == s[0]
    decreases |s|
  {
    if |s| == 0 then []
    else
      var rest := Words(s[1..]);
      assert forall i, j :: 0 <= i < |rest| && 0 <= j < |rest[i]| ==> rest[i][j] in s by {
        assert forall c :: c in s[1..] ==> c in s;
      }
      if Space(s[0]) then rest
      else if |s| > 1 && !Space(s[1]) then
        var first := [s[0]] + rest[0];
        assert forall j :: 0 < j < |first| ==> first[j] == rest[0][j - 1];
        [first] + rest[1..]
      else [[s[0]]] + rest
  }

  /** `plain_text_from_html`: strip tags, split on whitespace, join with one space,
      trim. */
  function PlainText(input: string): string {
    Trim(Join(Words(StripTags(input, false)), " "), Space)
  }

  /** The shape every plain text has: trimmed, and every whitespace character is a
      single ASCII space between two non-whitespace characters. */
  predicate Collapsed(s: string) {
    && IsTrimmed(s, Space)
    && forall i :: 0 <= i < |s| && Space(s[i]) ==> s[i] == ' ' && i + 1 < |s| && !Space(s[i + 1])
  }

  /** Words joined by single spaces are collapsed. */
  lemma {:induction false} JoinedWordsCollapsed(ws: seq<string>)
    requires forall i :: 0 <= i < |ws| ==> IsWord(ws[i])
    ensures Collapsed(Join(ws, " "))
    decreases |ws|
  {
    if |ws| > 1 {
      var tail := Join(ws[1..], " ");
      JoinedWordsCollapsed(ws[1..]);
      var s := Join(ws, " ");
      assert s == ws[0] + " " + tail;
      assert |tail| > 0 by { assert |ws[1..]| >= 1; JoinNonEmpty(ws[1..]); }
      forall i | 0 <= i < |s| && Space(s[i])
        ensures s[i] == ' ' && i + 1 < |s| && !Space(s[i + 1])
      {
        if i < |ws[0]| {
        } else if i == |ws[0]| {
          assert s[i + 1] == tail[0];
        } else {
          assert s[i] == tail[i - |ws[0]| - 1];
          if i + 1 < |s| {
            assert s[i + 1] == tail[i - |ws[0]|];
          }
        }
      }
      assert s[|s| - 1] == tail[|tail| - 1];
    }
  }

  lemma {:induction false} JoinNonEmpty(ws: seq<string>)
    requires |ws| >= 1 && forall i :: 0 <= i < |ws| ==> IsWord(ws[i])
    requires |ws[0]| > 0 && |ws[|ws| - 1]| > 0
    ensures |Join(ws, " ")| > 0 && Join(ws, " ")[0] == ws[0][0]
    ensures Join(ws, " ")[|Join(ws, " ")| - 1] == ws[|ws| - 1][|ws[|ws| - 1]| - 1]
    decreases |ws|
  {
    if |ws| > 1 {
      JoinNonEmpty(ws[1..]);
    }
  }

  /** A lone word is its own split. */
  lemma {:induction false} WordsOfWord(w: string)
    requires IsWord(w)
    ensures Words(w) == [w]
    decreases |w|
  {
    if |w| == 1 {
      assert Words(w[1..]) == [];
      assert !Space(w[0]);
      assert Words(w) == [[w[0]]] + Words(w[1..]);
      assert [w[0]] == w;
    } else {
      assert IsWord(w[1..]) by {
        assert forall j :: 0 <= j < |w| - 1 ==> w[1..][j] == w[j + 1];
      }
      WordsOfWord(w[1..]);
      assert !Space(w[1]);
      assert Words(w) == [[w[0]] + Words(w[1..])[0]] + Words(w[1..])[1..];
      assert [w[0]] + w[1..] == w;
    }
  }

  /** A word followed by a space splits off as the first word. */
  lemma {:induction false} WordsCons(w: string, rest: string)
    requires IsWord(w)
    ensures Words(w + " " + rest) == [w] + Words(rest)
    decreases |w|
  {
    if |w| == 1 {
      assert w + " " + rest == [w[0]] + (" " + rest);
      assert [w[0]] == w;
      SingleLetterWord(w[0], rest);
    } else {
      WordTail(w);
      WordsCons(w[1..], rest);
      WordsConsStep(w, rest);
    }
  }

  /** The inductive step of `WordsCons`: the first letter joins the word after it. */
  lemma WordsConsStep(w: string, rest: string)
    requires IsWord(w) && |w| > 1
    requires Words(w[1..] + " " + rest) == [w[1..]] + Words(rest)
    ensures Words(w + " " + rest) == [w] + Words(rest)
  {
    var t := w[1..] + " " + rest;
    assert w + " " + rest == [w[0]] + t;
    LetterJoinsWord(w[0], t);
    assert [w[0]] + w[1..] == w;
  }

  /** Dropping the first letter of a longer word leaves a word. */
  lemma WordTail(w: string)
    requires IsWord(w) && |w| > 1
    ensures IsWord(w[1..])
  {
    assert forall j :: 0 <= j < |w| - 1 ==> w[1..][j] == w[j + 1];
  }

  /** A non-space letter before a non-space character joins the first word. */
  lemma LetterJoinsWord(c: char, t: string)
    requires !Space(c) && |t| > 0 && !Space(t[0])
    ensures Words([c] + t) == [[c] + Words(t)[0]] + Words(t)[1..]
  {
    var s := [c] + t;
    assert s[1..] == t;
    assert s[1] == t[0];
  }

  /** A single non-space letter followed by a space is a word of its own. */
  lemma SingleLetterWord(c: char, rest: string)
    requires !Space(c)
    ensures Words([c] + (" " + rest)) == [[c]] + Words(rest)
  {
    var s := [c] + (" " + rest);
    assert s[1..] == " " + rest;
    assert Words(s[1..]) == Words(rest) by {
      assert (" " + rest)[1..] == rest;
    }
    assert Space(s[1]);
  }

  /** `split_whitespace` recovers the words that a single-space join put together. */
  lemma {:induction false} WordsOfJoin(ws: seq<string>)
    requires forall i :: 0 <= i < |ws| ==> IsWord(ws[i])
    ensures Words(Join(ws, " ")) == ws
    decreases |ws|
  {
    if |ws| == 1 {
      WordsOfWord(ws[0]);
    } else if |ws| > 1 {
      WordsOfJoin(ws[1..]);
      WordsCons(ws[0], Join(ws[1..], " "));
      assert [ws[0]] + ws[1..] == ws;
    }
  }

  /** Everything `PlainText` returns is collapsed and free of tag markers. */
  lemma PlainTextShape(input: string)
    ensures Collapsed(PlainText(input))
    ensures '<' !in PlainText(input) && '>' !in PlainText(input)
  {
    var stripped := StripTags(input, false);
    var ws := Words(stripped);
    var joined := Join(ws, " ");
    JoinedWordsCollapsed(ws);
    TrimFixedPoint(joined, Space);
    assert PlainText(input) == joined;
    JoinedCharsFrom(ws, stripped);
  }

  /** Every character of a single-space join is a space or comes from a word. */
  lemma {:induction false} JoinedCharsFrom(ws: seq<string>, src: string)
    requires forall i, j :: 0 <= i < |ws| && 0 <= j < |ws[i]| ==> ws[i][j] in src
    ensures forall c :: c in Join(ws, " ") ==> c == ' ' || c in src
    decreases |ws|
  {
    if |ws| > 1 {
      JoinedCharsFrom(ws[1..], src);
      assert forall j :: 0 <= j < |ws[0]| ==> ws[0][j] in src;
    } else if |ws| == 1 {
      assert forall j :: 0 <= j < |ws[0]| ==> ws[0][j] in src;
    }
  }

  /** A collapsed string is its own plain text. */
  lemma CollapsedIsFixedPoint(s: string)
    requires Collapsed(s)
    requires '<' !in s && '>' !in s
    ensures PlainText(s) == s
  {
    StripTagsKeepsPlainText(s);
    CollapsedIsJoinOfWords(s);
    var ws := Words(s);
    JoinedWordsCollapsed(ws);
    TrimFixedPoint(Join(ws, " "), Space);
  }

  /** A collapsed string is the single-space join of its words. */
  lemma {:induction false} CollapsedIsJoinOfWords(s: string)
    requires Collapsed(s)
    ensures Join(Words(s), " ") == s
    decreases |s|
  {
    if |s| > 0 {
      var k := FirstSpace(s);
      if k == |s| {
        assert IsWord(s);
        WordsOfWord(s);
      } else {
        var w := s[..k];
        var rest := s[k + 1..];
        assert s == w + " " + rest;
        assert IsWord(w) by {
          assert k > 0 by { assert !Space(s[0]); }
        }
        CollapsedSuffix(s, k);
        CollapsedIsJoinOfWords(rest);
        WordsCons(w, rest);
        var rws := Words(rest);
        assert |rws| >= 1 by { assert !Space(rest[0]); }
        assert ([w] + rws)[1..] == rws;
      }
    }
  }

  /** What follows the first whitespace of a collapsed string is again collapsed
      and starts with a non-whitespace character. */
  lemma CollapsedSuffix(s: string, k: nat)
    requires Collapsed(s) && k < |s| && Space(s[k])
    ensures k + 1 < |s| && Collapsed(s[k + 1..]) && !Space(s[k + 1])
  {
    var rest := s[k + 1..];
    forall i | 0 <= i < |rest| && Space(rest[i])
      ensures rest[i] == ' ' && i + 1 < |rest| && !Space(rest[i + 1])
    {
      assert rest[i] == s[k + 1 + i];
    }
  }

  /** The index of the first whitespace character, or `|s|`. */
  function FirstSpace(s: string): (k: nat)
    ensures k <= |s|
    ensures forall i :: 0 <= i < k ==> !Space(s[i])
    ensures k < |s| ==> Space(s[k])
    decreases |s|
  {
    if |s| == 0 then 0 else if Space(s[0]) then 0 else 1 + FirstSpace(s[1..])
  }

  /** Applying `plain_text_from_html` twice equals applying it once. */
  lemma PlainTextIdempotent(input: string)
    ensures PlainText(PlainText(input)) == PlainText(input)
  {
    PlainTextShape(input);
    CollapsedIsFixedPoint(PlainText(input));
  }

  /** The excerpt length of `fallback_summary`. */
  const MaxExcerpt: nat := 140

  /** `fallback_summary`: the text itself when it has at most 140 characters,
      otherwise its first 140 characters followed by an ellipsis. */
  function FallbackSummary(text: string): (r: string)
    ensures |text| <= MaxExcerpt ==> r == text
    ensures |text| > MaxExcerpt ==> |r| == MaxExcerpt + 1 && r[..MaxExcerpt] == text[..MaxExcerpt] && r[MaxExcerpt] == '…'
    ensures |r| <= MaxExcerpt + 1
  {
    if |text| > MaxExcerpt then text[..MaxExcerpt] + "…" else text
  }

  /** An excerpt is its own excerpt. */
  lemma FallbackSummaryIdempotent(text: string)
    ensures FallbackSummary(FallbackSummary(text)) == FallbackSummary(text)
  {
    var r := FallbackSummary(text);
    if |text| > MaxExcerpt {
      assert r[..MaxExcerpt] + "…" == r;
    }
  }
}
