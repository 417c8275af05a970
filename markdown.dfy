/** The choice `renderMarkdown` makes for a code element: a highlighted block in the
    language named by `/language-(\w+)/` in its class name, or plain inline code. */
module Markdown {
  import opened Js

  const Marker: string := "language-"

  /** `\w`: ASCII letters, digits and underscore. */
  predicate IsWordChar(c: char) {
    ('A' <= c <= 'Z') || ('a' <= c <= 'z') || ('0' <= c <= '9') || c == '_'
  }

  /** The regular expression can match at position p: the marker, then a word character. */
  predicate MatchAt(s: string, p: int) {
    0 <= p && p + |Marker| < |s| && s[p..p + |Marker|] == Marker && IsWordChar(s[p + |Marker|])
  }

  /** The first position at or after `from` where the expression matches. */
  function FirstMatchFrom(s: string, from: nat): (p: Option<nat>)
    ensures p.Some? ==> from <= p.value && MatchAt(s, p.value)
    ensures p.Some? ==> forall q | from <= q < p.value :: !MatchAt(s, q)
    ensures p.None? ==> forall q | from <= q :: !MatchAt(s, q)
    decreases |s| - from
  {
    if from + |Marker| >= |s| then None
    else if MatchAt(s, from) then Some(from)
    else FirstMatchFrom(s, from + 1)
  }

  /** The greedy `(\w+)` group: the longest run of word characters from position i. */
  function WordRun(s: string, i: nat): (w: string)
    requires i <= |s|
    ensures i + |w| <= |s| && w == s[i..i + |w|]
    ensures forall j | 0 <= j < |w| :: IsWordChar(w[j])
    ensures i + |w| == |s| || !IsWordChar(s[i + |w|])
    decreases |s| - i
  {
    if i < |s| && IsWordChar(s[i]) then [s[i]] + WordRun(s, i + 1) else []
  }

  /** `/language-(\w+)/.exec(className || "")?.[1]`: the word after the leftmost
      `language-` that is followed by a word character. */
  function CodeLanguage(className: Option<string>): (lang: Option<string>)
    ensures var s := if className.Some? then className.value else "";
      && (lang.None? <==> forall q :: !MatchAt(s, q))
      && (lang.Some? ==> exists p | MatchAt(s, p) ::
            (forall q | 0 <= q < p :: !MatchAt(s, q)) && lang.value == WordRun(s, p + |Marker|))
      && (lang.Some? ==> lang.value != "")
  {
    var s := if className.Some? then className.value else "";
    match FirstMatchFrom(s, 0)
    case None => None
    case Some(p) => Some(WordRun(s, p + |Marker|))
  }

  /** A class name that starts with the marker yields the word after it, cut at the first
      character that is not a word character: `language-objective-c` gives `objective`. */
  lemma LanguageAfterMarker(lang: string, post: string)
    requires lang != [] && forall j | 0 <= j < |lang| :: IsWordChar(lang[j])
    requires post == [] || !IsWordChar(post[0])
    ensures CodeLanguage(Some(Marker + lang + post)) == Some(lang)
  {
    var s := Marker + lang + post;
    assert s[..|Marker|] == Marker;
    assert s[|Marker|] == lang[0];
    assert MatchAt(s, 0);
    assert FirstMatchFrom(s, 0) == Some(0);
    assert s[|Marker|..] == lang + post;
    WordRunStops(s, |Marker|, lang, post);
  }

  lemma {:induction false} WordRunStops(s: string, i: nat, w: string, post: string)
    requires i + |w| + |post| == |s| && s[i..] == w + post
    requires forall j | 0 <= j < |w| :: IsWordChar(w[j])
    requires post == [] || !IsWordChar(post[0])
    ensures WordRun(s, i) == w
    decreases |w|
  {
    if w == [] {
      assert post == [] || s[i] == post[0];
    } else {
      assert s[i] == w[0];
      assert s[i + 1..] == w[1..] + post;
      WordRunStops(s, i + 1, w[1..], post);
      assert [w[0]] + w[1..] == w;
    }
  }

  /** How a code element is rendered. */
  datatype CodeView = Highlighted(language: string) | InlineCode

  /** A block with a recognised language is highlighted; everything else is inline code. */
  function RenderCode(inline: bool, className: Option<string>): (v: CodeView)
    ensures v.Highlighted? <==> !inline && CodeLanguage(className).Some?
    ensures v.Highlighted? ==> v.language == CodeLanguage(className).value
  {
    var lang := CodeLanguage(className);
    if !inline && lang.Some? then Highlighted(lang.value) else InlineCode
  }
}
