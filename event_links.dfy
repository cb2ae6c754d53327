/** How the hook finds an event's link: HTML entity decoding of the
    description, URL normalisation, and the search of a description for an
    `href` attribute, a `#link:` tag or a bare URL. */
module EventLinks {
  import opened Wrappers
  import opened JsText

  // ---------------------------------------------------------------------
  // HTML entities

  /** decodeHtmlEntities: five global replacements in this order, the
      ampersand last. */
  function DecodeHtmlEntities(v: string): string {
    var lt := ReplaceAll(v, "&lt;", "<", false);
    var gt := ReplaceAll(lt, "&gt;", ">", false);
    var quot := ReplaceAll(gt, "&quot;", "\"", false);
    var apos := ReplaceAll(quot, "&#39;", "'", false);
    ReplaceAll(apos, "&amp;", "&", false)
  }

  /** The decoding pass (0 to 4) that restores a character; 5 for the
      characters that need no entity. */
  function EntityPassOf(c: char): nat {
    if c == '<' then 0 else if c == '>' then 1 else if c == '"' then 2
    else if c == '\'' then 3 else if c == '&' then 4 else 5
  }

  /** The entity that stands for a character that needs one. */
  function EntityOf(c: char): string {
    if c == '<' then "&lt;" else if c == '>' then "&gt;" else if c == '"' then "&quot;"
    else if c == '\'' then "&#39;" else "&amp;"
  }

  /** HTML escaping of the five characters decodeHtmlEntities knows. */
  function EncodeHtmlEntities(s: string): string {
    if s == [] then []
    else (if EntityPassOf(s[0]) < 5 then EntityOf(s[0]) else [s[0]]) + EncodeHtmlEntities(s[1..])
  }

  /** The character pass `k` restores. */
  function EntityPassChar(k: nat): char
    requires k < 5
  {
    if k == 0 then '<' else if k == 1 then '>' else if k == 2 then '"' else if k == 3 then '\'' else '&'
  }

  /** Pass `k` of DecodeHtmlEntities. */
  function EntityPass(k: nat, s: string): string
    requires k < 5
  {
    ReplaceAll(s, EntityOf(EntityPassChar(k)), [EntityPassChar(k)], false)
  }

  lemma DecodeByPasses(v: string)
    ensures DecodeHtmlEntities(v) == EntityPass(4, EntityPass(3, EntityPass(2, EntityPass(1, EntityPass(0, v)))))
  {
  }

  /** A character of an encoded text after the first `k` decoding passes. */
  function EntityStagedChar(k: nat, c: char): string {
    if k <= EntityPassOf(c) < 5 then EntityOf(c) else [c]
  }

  /** An encoded text after its first `k` decoding passes. */
  function EntityStaged(k: nat, s: string): string {
    if s == [] then [] else EntityStagedChar(k, s[0]) + EntityStaged(k, s[1..])
  }

  lemma {:induction false} EncodeIsEntityStagedZero(s: string)
    ensures EncodeHtmlEntities(s) == EntityStaged(0, s)
  {
    if s != [] {
      EncodeIsEntityStagedZero(s[1..]);
    }
  }

  lemma {:induction false} EntityStagedFive(s: string)
    ensures EntityStaged(5, s) == s
  {
    if s != [] {
      EntityStagedFive(s[1..]);
    }
  }

  /** Two different entities already differ in their second character. */
  lemma EntitiesDiffer(c: char, d: char, rest: string)
    requires EntityPassOf(c) < 5 && EntityPassOf(d) < 5 && c != d
    ensures !PrefixMatch(EntityOf(c) + rest, EntityOf(d), false)
  {
    var x := EntityOf(c) + rest;
    assert x[1] == EntityOf(c)[1];
    PrefixMismatchAt(x, EntityOf(d), false, 1);
  }

  /** Pass `k` turns the chunk of one character from stage `k` into stage `k + 1`. */
  lemma EntityPassChunk(k: nat, c: char, t: string)
    requires k < 5
    ensures EntityPass(k, EntityStagedChar(k, c) + EntityStaged(k, t))
            == EntityStagedChar(k + 1, c) + EntityPass(k, EntityStaged(k, t))
  {
    var p := EntityOf(EntityPassChar(k));
    var rest := EntityStaged(k, t);
    if EntityPassOf(c) == k {
      assert EntityStagedChar(k, c) == p;
      ReplaceAllTake(p, rest, [EntityPassChar(k)], false);
    } else if !(k <= EntityPassOf(c) < 5) {
      assert c != '&';
      ReplaceAllSkip(c, rest, p, [EntityPassChar(k)], false);
    } else {
      EntitiesDiffer(c, EntityPassChar(k), rest);
      ReplaceAllSkipChunk(EntityOf(c), rest, p, [EntityPassChar(k)], false);
    }
  }

  lemma {:induction false} EntityPassAdvances(k: nat, s: string)
    requires k < 5
    ensures EntityPass(k, EntityStaged(k, s)) == EntityStaged(k + 1, s)
  {
    if s != [] {
      EntityPassChunk(k, s[0], s[1..]);
      EntityPassAdvances(k, s[1..]);
    }
  }

  lemma EntityAllPasses(s: string)
    ensures EntityPass(4, EntityPass(3, EntityPass(2, EntityPass(1, EntityPass(0, EntityStaged(0, s)))))) == s
  {
    EntityPassAdvances(0, s);
    EntityPassAdvances(1, s);
    EntityPassAdvances(2, s);
    EntityPassAdvances(3, s);
    EntityPassAdvances(4, s);
    EntityStagedFive(s);
  }

  /** Decoding undoes HTML escaping for every text: the ampersand comes last,
      so an escaped entity is decoded exactly one level. */
  lemma DecodeInvertsEncode(s: string)
    ensures DecodeHtmlEntities(EncodeHtmlEntities(s)) == s
  {
    EncodeIsEntityStagedZero(s);
    DecodeByPasses(EncodeHtmlEntities(s));
    EntityAllPasses(s);
  }

  /** `&amp;lt;` decodes to the text `&lt;`, not to `<`. */
  lemma DecodesOneLevel()
    ensures DecodeHtmlEntities("&amp;lt;") == "&lt;"
  {
    assert EncodeHtmlEntities("&lt;") == "&amp;lt;";
    DecodeInvertsEncode("&lt;");
  }

  /** Text without an ampersand is left as it is. */
  lemma DecodeLeavesPlainText(v: string)
    requires '&' !in v
    ensures DecodeHtmlEntities(v) == v
  {
    ReplaceAllNoStart(v, "&lt;", "<", false);
    ReplaceAllNoStart(v, "&gt;", ">", false);
    ReplaceAllNoStart(v, "&quot;", "\"", false);
    ReplaceAllNoStart(v, "&#39;", "'", false);
    ReplaceAllNoStart(v, "&amp;", "&", false);
  }

  // ---------------------------------------------------------------------
  // URLs

  /** A character of the class `[^\s"<>]`. */
  predicate IsUrlChar(c: char) {
    !IsSpace(c) && c != '"' && c != '<' && c != '>'
  }

  /** The longest prefix made of URL characters. */
  function UrlRun(s: string): (r: string)
    ensures |r| <= |s| && r == s[..|r|]
    ensures forall i :: 0 <= i < |r| ==> IsUrlChar(r[i])
    ensures |r| < |s| ==> !IsUrlChar(s[|r|])
  {
    if s != [] && IsUrlChar(s[0]) then [s[0]] + UrlRun(s[1..]) else []
  }

  /** `https://` or `http://` at the start, case ignored. */
  predicate HasScheme(s: string) {
    PrefixMatch(s, "http://", true) || PrefixMatch(s, "https://", true)
  }

  /** How many characters `https?://` takes when the URL pattern matches at
      the start of `s` (the `s` is taken when it can be), or 0 when the
      pattern, which needs one URL character after the scheme, does not. */
  function SchemeLength(s: string): (n: nat)
    ensures n == 0 || n == 7 || n == 8
    ensures n > 0 ==> n < |s| && IsUrlChar(s[n]) && HasScheme(s)
  {
    if PrefixMatch(s, "https://", true) && |s| > 8 && IsUrlChar(s[8]) then 8
    else if PrefixMatch(s, "http://", true) && |s| > 7 && IsUrlChar(s[7]) then 7
    else 0
  }

  /** A scheme followed by URL characters only. */
  predicate UrlShaped(u: string) {
    HasScheme(u) && forall i :: 7 <= i < |u| ==> IsUrlChar(u[i])
  }

  lemma HttpsChars(s: string)
    requires PrefixMatch(s, "https://", true)
    ensures |s| >= 8 && (s[0] == 'h' || s[0] == 'H') && s[6] == '/' && s[7] == '/'
  {
    PrefixMatchAt(s, "https://", true, 0);
    PrefixMatchAt(s, "https://", true, 6);
    PrefixMatchAt(s, "https://", true, 7);
  }

  lemma HttpChars(s: string)
    requires PrefixMatch(s, "http://", true)
    ensures |s| >= 7 && (s[0] == 'h' || s[0] == 'H') && s[6] == '/'
  {
    PrefixMatchAt(s, "http://", true, 0);
    PrefixMatchAt(s, "http://", true, 6);
  }

  /** The scheme's characters read back from a match. */
  lemma SchemeChars(s: string)
    requires HasScheme(s)
    ensures |s| >= 7 && (s[0] == 'h' || s[0] == 'H') && s[6] == '/'
    ensures PrefixMatch(s, "https://", true) ==> |s| >= 8 && s[7] == '/'
  {
    if PrefixMatch(s, "https://", true) {
      HttpsChars(s);
    } else {
      HttpChars(s);
    }
  }

  /** The match found at the start of `s`: the scheme and the longest run of
      URL characters after it. */
  function MatchAtStart(s: string): (m: string)
    requires SchemeLength(s) > 0
    ensures 8 <= |m| <= |s| && m == s[..|m|] && UrlShaped(m)
  {
    var n := SchemeLength(s);
    var m := s[..n] + UrlRun(s[n..]);
    assert m == s[..|m|];
    SchemeChars(s);
    assert UrlShaped(m) by {
      PrefixMatchExtend(m, s, "http://", true);
      PrefixMatchExtend(m, s, "https://", true);
    }
    m
  }

  /** The leftmost match of /https?:\/\/[^\s"<>]+/i. */
  function FindUrl(s: string): (r: Option<string>)
    ensures r.Some? ==> 8 <= |r.value| <= |s| && UrlShaped(r.value)
    decreases |s|
  {
    if s == [] then None
    else if SchemeLength(s) > 0 then Some(MatchAtStart(s))
    else FindUrl(s[1..])
  }

  /** FindUrl on the suffix of `s` from `lo` finds nothing exactly when no
      position from `lo` on starts a scheme. */
  lemma {:induction false} FindUrlNoneFrom(s: string, lo: nat)
    requires lo <= |s|
    ensures FindUrl(s[lo..]).None? <==> forall i :: lo <= i < |s| ==> SchemeLength(s[i..]) == 0
    decreases |s| - lo
  {
    if lo < |s| {
      assert s[lo..][1..] == s[lo + 1..];
      FindUrlNoneFrom(s, lo + 1);
    }
  }

  /** Otherwise FindUrl on the suffix from `lo` returns the match at the
      first position `i` from `lo` on that starts a scheme. */
  lemma {:induction false} FindUrlFirstFrom(s: string, lo: nat) returns (i: nat)
    requires lo <= |s| && FindUrl(s[lo..]).Some?
    ensures lo <= i < |s| && SchemeLength(s[i..]) > 0
    ensures forall j :: lo <= j < i ==> SchemeLength(s[j..]) == 0
    ensures FindUrl(s[lo..]).value == MatchAtStart(s[i..])
    decreases |s| - lo
  {
    if SchemeLength(s[lo..]) > 0 {
      i := lo;
    } else {
      assert s[lo..][1..] == s[lo + 1..];
      i := FindUrlFirstFrom(s, lo + 1);
    }
  }

  /** FindUrl finds nothing exactly when no position of `s` starts a
      scheme. */
  lemma FindUrlNone(s: string)
    ensures FindUrl(s).None? <==> forall i :: 0 <= i < |s| ==> SchemeLength(s[i..]) == 0
  {
    assert s[0..] == s;
    FindUrlNoneFrom(s, 0);
  }

  /** Otherwise FindUrl returns the match at the first position of `s` that
      starts a scheme: a substring of `s`. */
  lemma FindUrlLeftmost(s: string)
    requires FindUrl(s).Some?
    ensures exists i ::
              && 0 <= i < |s| && SchemeLength(s[i..]) > 0
              && (forall j :: 0 <= j < i ==> SchemeLength(s[j..]) == 0)
              && FindUrl(s).value == MatchAtStart(s[i..])
              && FindUrl(s).value == s[i..i + |FindUrl(s).value|]
  {
    assert s[0..] == s;
    var i := FindUrlFirstFrom(s, 0);
    var m := FindUrl(s).value;
    SliceOfSuffix(s, i, |m|);
    assert m == s[i..i + |m|];
  }

  predicate IsTrailingPunct(c: char) {
    c == ')' || c == '.' || c == ','
  }

  /** The text without its trailing run of `)`, `.` and `,`. */
  function TrimTrailingPunct(s: string): (r: string)
    ensures |r| <= |s| && r == s[..|r|]
    ensures r == [] || !IsTrailingPunct(r[|r| - 1])
    ensures forall i :: |r| <= i < |s| ==> IsTrailingPunct(s[i])
  {
    if s != [] && IsTrailingPunct(s[|s| - 1]) then TrimTrailingPunct(s[..|s| - 1]) else s
  }

  /** What normalizeUrl lets through: a text that begins with a scheme and
      does not end in `)`, `.` or `,`. */
  predicate IsLink(u: string) {
    u != [] && HasScheme(u) && !IsTrailingPunct(u[|u| - 1])
  }

  /** normalizeUrl: an absent or empty value has no link; otherwise the
      first URL in the trimmed text, or the whole trimmed text when there is
      none, loses its trailing punctuation and is kept only if it still
      begins with a scheme. */
  function NormalizeUrl(raw: Option<string>): (r: Option<string>)
    ensures raw.None? || raw.value == [] ==> r.None?
    ensures r.Some? ==> IsLink(r.value)
  {
    if raw.None? || raw.value == [] then None
    else
      var trimmed := Trim(raw.value);
      var candidate := if FindUrl(trimmed).Some? then FindUrl(trimmed).value else trimmed;
      var cleaned := TrimTrailingPunct(candidate);
      if HasScheme(cleaned) then Some(cleaned) else None
  }

  /** Trailing punctuation never eats into the scheme of a match. */
  lemma TrimmedUrlKeepsScheme(m: string)
    requires UrlShaped(m)
    ensures UrlShaped(TrimTrailingPunct(m))
  {
    var r := TrimTrailingPunct(m);
    SchemeChars(m);
    if PrefixMatch(m, "https://", true) {
      PrefixMatchExtend(r, m, "https://", true);
    } else {
      PrefixMatchExtend(r, m, "http://", true);
    }
  }

  /** A URL found in the text is always kept, minus its trailing punctuation. */
  lemma NormalizeKeepsFoundUrl(raw: string, m: string)
    requires raw != [] && FindUrl(Trim(raw)) == Some(m)
    ensures NormalizeUrl(Some(raw)) == Some(TrimTrailingPunct(m))
  {
    TrimmedUrlKeepsScheme(m);
  }

  lemma UrlRunAll(s: string)
    requires forall i :: 0 <= i < |s| ==> IsUrlChar(s[i])
    ensures UrlRun(s) == s
  {
  }

  /** A URL-shaped text is its own match, or too short to hold one. */
  lemma FindUrlOfShaped(u: string)
    requires UrlShaped(u)
    ensures FindUrl(u) == None || FindUrl(u) == Some(u)
  {
    SchemeChars(u);
    var n := SchemeLength(u);
    if n > 0 {
      UrlRunAll(u[n..]);
      assert u[..n] + u[n..] == u;
    } else {
      assert |u| <= 8;
    }
  }

  /** Whether the URL pattern matches at the start of a prefix of `t` can
      only be true if it matches at the start of `t`. */
  lemma SchemeLengthPrefix(t: string, k: nat)
    requires k <= |t|
    ensures SchemeLength(t[..k]) > 0 ==> SchemeLength(t) > 0
  {
    var s := t[..k];
    if SchemeLength(s) == 8 {
      PrefixMatchExtend(s, t, "https://", true);
      assert s[8] == t[8];
    } else if SchemeLength(s) == 7 {
      PrefixMatchExtend(s, t, "http://", true);
      assert s[7] == t[7];
    }
  }

  /** A text without a URL has none in any prefix. */
  lemma {:induction false} FindUrlNonePrefix(t: string, k: nat)
    requires k <= |t| && FindUrl(t) == None
    ensures FindUrl(t[..k]) == None
  {
    if k > 0 {
      SchemeLengthPrefix(t, k);
      assert t[..k][1..] == t[1..][..k - 1];
      FindUrlNonePrefix(t[1..], k - 1);
    }
  }

  lemma TrimTrailingPunctClean(u: string)
    requires u != [] && !IsTrailingPunct(u[|u| - 1])
    ensures TrimTrailingPunct(u) == u
  {
  }

  /** A clean URL-looking text that holds no other match normalises to itself. */
  lemma NormalizeClean(u: string)
    requires HasScheme(u) && !IsTrailingPunct(u[|u| - 1]) && !IsSpace(u[|u| - 1])
    requires FindUrl(u) == None || FindUrl(u) == Some(u)
    ensures NormalizeUrl(Some(u)) == Some(u)
  {
    CleanUrlUnchanged(u);
    NormalizeSettled(u);
  }

  lemma CleanUrlUnchanged(u: string)
    requires HasScheme(u) && !IsTrailingPunct(u[|u| - 1]) && !IsSpace(u[|u| - 1])
    ensures u != [] && Trim(u) == u && TrimTrailingPunct(u) == u
  {
    SchemeChars(u);
    TrimOfUrl(u);
    TrimTrailingPunctClean(u);
  }

  lemma TrimOfUrl(u: string)
    requires u != [] && (u[0] == 'h' || u[0] == 'H') && !IsSpace(u[|u| - 1])
    ensures Trim(u) == u
  {
    assert !IsSpace(u[0]);
    TrimUnchanged(u);
  }

  lemma NormalizeSettled(u: string)
    requires u != [] && Trim(u) == u && TrimTrailingPunct(u) == u && HasScheme(u)
    requires FindUrl(u) == None || FindUrl(u) == Some(u)
    ensures NormalizeUrl(Some(u)) == Some(u)
  {
  }

  /** A normalised link normalises to itself unless it ends in white space,
      which only a text without a match (`http:// )`) can produce. */
  lemma NormalizeUrlFixedPoint(raw: Option<string>, u: string)
    requires NormalizeUrl(raw) == Some(u) && !IsSpace(u[|u| - 1])
    ensures NormalizeUrl(Some(u)) == Some(u)
  {
    var trimmed := Trim(raw.value);
    match FindUrl(trimmed)
    case Some(m) =>
      TrimmedUrlKeepsScheme(m);
      FindUrlOfShaped(u);
      NormalizeClean(u);
    case None =>
      FindUrlNonePrefix(trimmed, |u|);
      NormalizeClean(u);
  }

  lemma FindUrlNeedsEight(s: string)
    requires |s| < 8
    ensures FindUrl(s) == None
  {
  }

  lemma NoUrlInSpacedScheme()
    ensures FindUrl("http:// )") == None
  {
    var s := "http:// )";
    assert !IsUrlChar(s[7]);
    assert !PrefixMatch(s, "https://", true) by {
      if PrefixMatch(s, "https://", true) {
        PrefixMatchAt(s, "https://", true, 4);
      }
    }
    assert SchemeLength(s) == 0;
    assert s[1..] == "ttp:// )";
    assert SchemeLength(s[1..]) == 0 by {
      assert !PrefixMatch(s[1..], "http://", true);
      assert !PrefixMatch(s[1..], "https://", true);
    }
    assert s[1..][1..] == "tp:// )";
    FindUrlNeedsEight(s[1..][1..]);
  }

  lemma NormalizeWithoutMatch(raw: string, t: string, u: string)
    requires raw != [] && Trim(raw) == t && FindUrl(t) == None
    requires TrimTrailingPunct(t) == u && HasScheme(u)
    ensures NormalizeUrl(Some(raw)) == Some(u)
  {
  }

  lemma SpacedSchemeTrimmed()
    ensures Trim("http:// )") == "http:// )"
  {
    TrimUnchanged("http:// )");
  }

  lemma SpacedSchemePunct()
    ensures TrimTrailingPunct("http:// )") == "http:// "
  {
    var s := "http:// )";
    assert s[..|s| - 1] == "http:// ";
  }

  lemma SpacedSchemeHasScheme()
    ensures HasScheme("http:// ") && HasScheme("http://")
  {
    PrefixMatchSelf("http://", " ", true);
    assert "http:// " == "http://" + " ";
    PrefixMatchSelf("http://", [], true);
    assert "http://" + [] == "http://";
  }

  lemma NormalizesSpacedScheme()
    ensures NormalizeUrl(Some("http:// )")) == Some("http:// ")
  {
    SpacedSchemeTrimmed();
    NoUrlInSpacedScheme();
    SpacedSchemePunct();
    SpacedSchemeHasScheme();
    NormalizeWithoutMatch("http:// )", "http:// )", "http:// ");
  }

  lemma BareSchemeTrimmed()
    ensures Trim("http:// ") == "http://"
  {
    var s := "http:// ";
    TrimStartUnchanged(s);
    assert s[..|s| - 1] == "http://";
    assert TrimEnd(s) == TrimEnd("http://");
    assert TrimEnd("http://") == "http://";
  }

  lemma NormalizesBareScheme()
    ensures NormalizeUrl(Some("http:// ")) == Some("http://")
  {
    BareSchemeTrimmed();
    FindUrlNeedsEight("http://");
    SpacedSchemeHasScheme();
    assert TrimTrailingPunct("http://") == "http://";
    NormalizeWithoutMatch("http:// ", "http://", "http://");
  }

  /** Normalising is not idempotent: a text without a match can end in white
      space once its trailing punctuation is gone, and the next trim removes it. */
  lemma NormalizeUrlNotIdempotent()
    ensures NormalizeUrl(Some("http:// )")) == Some("http:// ")
    ensures NormalizeUrl(Some("http:// ")) == Some("http://")
  {
    NormalizesSpacedScheme();
    NormalizesBareScheme();
  }

  // ---------------------------------------------------------------------
  // Links in descriptions

  predicate IsQuote(c: char) {
    c == '"' || c == '\''
  }

  /** The longest prefix without a quote. */
  function NonQuoteRun(s: string): (r: string)
    ensures |r| <= |s| && r == s[..|r|]
    ensures forall i :: 0 <= i < |r| ==> !IsQuote(r[i])
    ensures |r| < |s| ==> IsQuote(s[|r|])
  {
    if s != [] && !IsQuote(s[0]) then [s[0]] + NonQuoteRun(s[1..]) else []
  }

  /** The capture of /href=["']([^"']+)["']/i when it matches at the start
      of `s`: the run of non-quotes is greedy, so it matches exactly when
      the run is not empty and a quote ends it. */
  function HrefAt(s: string): (r: Option<string>)
    ensures r.Some? ==> r.value != [] && forall i :: 0 <= i < |r.value| ==> !IsQuote(r.value[i])
  {
    if PrefixMatch(s, "href=", true) && |s| > 5 && IsQuote(s[5]) then
      var v := NonQuoteRun(s[6..]);
      if v != [] && |v| < |s| - 6 then Some(v) else None
    else None
  }

  /** The capture of the leftmost match of /href=["']([^"']+)["']/i. */
  function HrefValue(s: string): (r: Option<string>)
    decreases |s|
  {
    if s == [] then None
    else if HrefAt(s).Some? then HrefAt(s)
    else HrefValue(s[1..])
  }

  /** The longest prefix without a line terminator: what `.+` takes. */
  function LineRun(s: string): (r: string)
    ensures |r| <= |s| && r == s[..|r|]
    ensures forall i :: 0 <= i < |r| ==> !IsLineTerminator(r[i])
    ensures |r| < |s| ==> IsLineTerminator(s[|r|])
  {
    if s != [] && !IsLineTerminator(s[0]) then [s[0]] + LineRun(s[1..]) else []
  }

  /** The longest prefix of white space: what `\s*` takes first. */
  function SpaceRun(s: string): (r: string)
    ensures |r| <= |s| && r == s[..|r|]
    ensures forall i :: 0 <= i < |r| ==> IsSpace(r[i])
    ensures |r| < |s| ==> !IsSpace(s[|r|])
  {
    if s != [] && IsSpace(s[0]) then [s[0]] + SpaceRun(s[1..]) else []
  }

  /** `\s*(.+)` with the first `k` characters of `s` as the white space:
      when `.+` cannot start after them, `\s*` gives one back. */
  function DotAfterSpaces(s: string, k: nat): (r: Option<string>)
    requires k <= |s|
    ensures r.Some? ==> r.value != [] && forall i :: 0 <= i < |r.value| ==> !IsLineTerminator(r.value[i])
    decreases k
  {
    if k < |s| && !IsLineTerminator(s[k]) then Some(LineRun(s[k..]))
    else if k == 0 then None
    else DotAfterSpaces(s, k - 1)
  }

  /** The capture of /#link:\s*(.+)/i when it matches at the start of `s`. */
  function LinkTagAt(s: string): Option<string> {
    if PrefixMatch(s, "#link:", true) then
      var after := s[6..];
      DotAfterSpaces(after, |SpaceRun(after)|)
    else None
  }

  /** The capture of the leftmost match of /#link:\s*(.+)/i. */
  function LinkTagValue(s: string): (r: Option<string>)
    decreases |s|
  {
    if s == [] then None
    else if LinkTagAt(s).Some? then LinkTagAt(s)
    else LinkTagValue(s[1..])
  }

  /** The first of three candidates that is present. */
  function FirstFound(a: Option<string>, b: Option<string>, c: Option<string>): (r: Option<string>)
    ensures r == a || r == b || r == c
    ensures r.None? <==> a.None? && b.None? && c.None?
  {
    if a.Some? then a else if b.Some? then b else c
  }

  /** The first of the `href` value, the `#link:` value and the whole
      decoded text that normalises to a URL. */
  function FirstLinkIn(decoded: string): (r: Option<string>)
    ensures r.Some? ==> IsLink(r.value)
  {
    FirstFound(NormalizeUrl(HrefValue(decoded)), NormalizeUrl(LinkTagValue(decoded)), NormalizeUrl(Some(decoded)))
  }

  /** extractLinkFromDescription: an absent or empty description has no
      link; otherwise the first link found in the description once its
      entities are decoded. */
  function ExtractLinkFromDescription(description: Option<string>): (r: Option<string>)
    ensures r.Some? ==> IsLink(r.value)
  {
    if description.None? || description.value == [] then None
    else FirstLinkIn(DecodeHtmlEntities(description.value))
  }

  /** A link as markup writes it: a URL-shaped text that ends in neither
      punctuation nor a quote-breaking character. */
  predicate CleanLink(u: string) {
    UrlShaped(u) && !IsTrailingPunct(u[|u| - 1])
    && forall i :: 0 <= i < |u| ==> u[i] != '&' && u[i] != '\'' && u[i] != '#'
  }

  /** The characters `https?://` can match, case ignored. */
  predicate IsSchemeChar(c: char) {
    c in "hHtTpPsS:/"
  }

  lemma SchemePrefixChars(u: string)
    requires HasScheme(u)
    ensures |u| >= 7 && forall i :: 0 <= i < 7 ==> IsSchemeChar(u[i])
  {
    var p := if PrefixMatch(u, "http://", true) then "http://" else "https://";
    forall i | 0 <= i < 7
      ensures IsSchemeChar(u[i])
    {
      PrefixMatchAt(u, p, true, i);
    }
  }

  /** No character of a clean link is a quote or white space. */
  lemma CleanLinkChars(u: string)
    requires CleanLink(u)
    ensures forall i :: 0 <= i < |u| ==> !IsQuote(u[i]) && !IsSpace(u[i])
  {
    SchemePrefixChars(u);
  }

  /** A clean link normalises to itself. */
  lemma NormalizeCleanLink(u: string)
    requires CleanLink(u)
    ensures NormalizeUrl(Some(u)) == Some(u)
  {
    SchemeChars(u);
    FindUrlOfShaped(u);
    NormalizeClean(u);
  }

  lemma {:induction false} HrefValueWithoutQuotes(s: string)
    requires forall i :: 0 <= i < |s| ==> !IsQuote(s[i])
    ensures HrefValue(s) == None
  {
    if s != [] {
      HrefValueWithoutQuotes(s[1..]);
    }
  }

  lemma {:induction false} LinkTagValueWithoutHash(s: string)
    requires '#' !in s
    ensures LinkTagValue(s) == None
  {
    if s != [] {
      PrefixMismatch(s, "#link:", true);
      LinkTagValueWithoutHash(s[1..]);
    }
  }

  /** A description with no markup at all is read as a bare URL. */
  lemma ExtractFallsBackToText(d: string)
    requires d != [] && forall i :: 0 <= i < |d| ==> d[i] != '&' && !IsQuote(d[i]) && d[i] != '#'
    ensures ExtractLinkFromDescription(Some(d)) == NormalizeUrl(Some(d))
  {
    DecodeLeavesPlainText(d);
    HrefValueWithoutQuotes(d);
    LinkTagValueWithoutHash(d);
  }

  /** An anchor element around a link. */
  function AnchorMarkup(u: string, text: string): string {
    "<a href=\"" + u + "\">" + text + "</a>"
  }

  /** A description that tags a link after some notes. */
  function TaggedMarkup(notes: string, u: string): string {
    notes + "#link: " + u
  }

  lemma {:induction false} NonQuoteRunStops(x: string, rest: string)
    requires forall i :: 0 <= i < |x| ==> !IsQuote(x[i])
    requires rest != [] && IsQuote(rest[0])
    ensures NonQuoteRun(x + rest) == x
  {
    if x != [] {
      assert (x + rest)[1..] == x[1..] + rest;
      NonQuoteRunStops(x[1..], rest);
    }
  }

  lemma HrefAtAnchor(u: string, tail: string)
    requires CleanLink(u)
    ensures HrefAt("href=\"" + u + tail) == (if tail != [] && IsQuote(tail[0]) then Some(u) else HrefAt("href=\"" + u + tail))
  {
    var t := "href=\"" + u + tail;
    if tail != [] && IsQuote(tail[0]) {
      assert t == "href=" + ("\"" + u + tail);
      PrefixMatchSelf("href=", "\"" + u + tail, true);
      assert t[6..] == u + tail;
      CleanLinkChars(u);
      NonQuoteRunStops(u, tail);
      SchemeChars(u);
    }
  }

  lemma HrefValueOfAnchor(u: string, text: string)
    requires CleanLink(u)
    ensures HrefValue(AnchorMarkup(u, text)) == Some(u)
  {
    var tail := "\">" + text + "</a>";
    HrefAtAnchor(u, tail);
    HrefValueSkips("<a ", "href=\"" + u + tail);
    AnchorSplit(u, text);
  }

  lemma AnchorSplit(u: string, text: string)
    ensures AnchorMarkup(u, text) == "<a " + ("href=\"" + u + ("\">" + text + "</a>"))
  {
  }

  /** No `href` match can start inside the opening `<a `. */
  lemma HrefValueSkips(open: string, t: string)
    requires open == "<a "
    requires HrefAt(t).Some?
    ensures HrefValue(open + t) == HrefAt(t)
  {
    var s := open + t;
    PrefixMismatch(s, "href=", true);
    assert HrefValue(s) == HrefValue(s[1..]);
    assert s[1..] == "a " + t;
    PrefixMismatch(s[1..], "href=", true);
    assert HrefValue(s[1..]) == HrefValue(s[1..][1..]);
    assert s[1..][1..] == " " + t;
    PrefixMismatch(s[1..][1..], "href=", true);
    assert HrefValue(s[1..][1..]) == HrefValue(t);
    assert s[1..][1..][1..] == t;
  }

  /** An `href` attribute is read first, whatever the text of the anchor
      says, and a clean link comes back unchanged. */
  lemma ExtractFromAnchor(u: string, text: string)
    requires CleanLink(u) && '&' !in text
    ensures ExtractLinkFromDescription(Some(AnchorMarkup(u, text))) == Some(u)
  {
    var s := AnchorMarkup(u, text);
    assert '&' !in s;
    DecodeLeavesPlainText(s);
    HrefValueOfAnchor(u, text);
    NormalizeCleanLink(u);
  }

  lemma {:induction false} LinkTagSkipsNotes(notes: string, rest: string)
    requires '#' !in notes
    ensures LinkTagValue(notes + rest) == LinkTagValue(rest)
  {
    if notes != [] {
      var s := notes + rest;
      assert s[0] == notes[0];
      PrefixMismatch(s, "#link:", true);
      assert LinkTagValue(s) == LinkTagValue(s[1..]);
      assert s[1..] == notes[1..] + rest;
      LinkTagSkipsNotes(notes[1..], rest);
    } else {
      assert notes + rest == rest;
    }
  }

  lemma LineRunAll(x: string)
    requires forall i :: 0 <= i < |x| ==> !IsLineTerminator(x[i])
    ensures LineRun(x) == x
  {
  }

  lemma LinkTagOfLink(u: string)
    requires CleanLink(u)
    ensures LinkTagValue("#link: " + u) == Some(u)
  {
    var s := "#link: " + u;
    SchemeChars(u);
    CleanLinkChars(u);
    assert s == "#link:" + (" " + u);
    PrefixMatchSelf("#link:", " " + u, true);
    var after := s[6..];
    assert after == " " + u;
    assert SpaceRun(after) == " " by {
      assert after[1..] == u;
    }
    assert after[1..] == u;
    LineRunAll(u);
  }

  /** A `#link:` tag after notes without markup gives its clean link. */
  lemma ExtractFromTag(notes: string, u: string)
    requires CleanLink(u)
    requires forall i :: 0 <= i < |notes| ==> notes[i] != '&' && !IsQuote(notes[i]) && notes[i] != '#'
    ensures ExtractLinkFromDescription(Some(TaggedMarkup(notes, u))) == Some(u)
  {
    var s := TaggedMarkup(notes, u);
    CleanLinkChars(u);
    assert forall i :: 0 <= i < |s| ==> s[i] != '&' && !IsQuote(s[i]) by {
      assert s == notes + "#link: " + u;
    }
    DecodeLeavesPlainText(s);
    HrefValueWithoutQuotes(s);
    assert s == notes + ("#link: " + u);
    LinkTagSkipsNotes(notes, "#link: " + u);
    LinkTagOfLink(u);
    NormalizeCleanLink(u);
  }
}
