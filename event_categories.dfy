/** How an event gets its category key: an explicit tag in the description
    (`type:kids`, `category:concerts`, `#workshops`, …) wins; otherwise the
    first configured category one of whose keywords occurs in the event's
    text; otherwise the configured default key. */
module EventCategories {
  import opened Wrappers
  import opened JsText
  import opened CalendarTypes

  /** A configured category: its key and the keywords that select it. */
  datatype Category = Category(key: string, keywords: seq<string>)

  /** The keys a description tag may name, in the order the pattern lists them. */
  const TagKeys: seq<string> := ["kids", "workshops", "concerts", "corporate"]

  /** What may introduce a tag, in the order the pattern lists them. */
  const TagPrefixes: seq<string> := ["type:", "category:", "#"]

  /** A character of `\w`. */
  predicate IsWordChar(c: char) {
    ('a' <= c <= 'z') || ('A' <= c <= 'Z') || ('0' <= c <= '9') || c == '_'
  }

  /** `\b` right after a key, which always ends in a word character. */
  predicate WordEndsAt(s: string, i: nat)
    requires i <= |s|
  {
    i == |s| || !IsWordChar(s[i])
  }

  /** The first of `keys` that `s` starts with as a whole word. */
  function KeyAt(s: string, keys: seq<string>): (r: Option<string>)
    ensures r.Some? ==> r.value in keys
    decreases |keys|
  {
    if keys == [] then None
    else if PrefixMatch(s, keys[0], false) && WordEndsAt(s, |keys[0]|) then Some(keys[0])
    else KeyAt(s, keys[1..])
  }

  /** The key of `(?:type:|category:|#)(kids|workshops|concerts|corporate)\b`
      when it matches at the start of `s`, trying the alternatives in order. */
  function TagAt(s: string, prefixes: seq<string>): (r: Option<string>)
    ensures r.Some? ==> r.value in TagKeys
    decreases |prefixes|
  {
    if prefixes == [] then None
    else if PrefixMatch(s, prefixes[0], false) && KeyAt(s[|prefixes[0]|..], TagKeys).Some? then
      KeyAt(s[|prefixes[0]|..], TagKeys)
    else TagAt(s, prefixes[1..])
  }

  /** The description tag that the pattern reads when it starts at `p`,
      scanning rightwards: `^` lets a tag stand at position 0, `\s` lets one
      follow a white-space character. */
  function DirectTagFrom(s: string, p: nat): (r: Option<string>)
    requires p <= |s|
    ensures r.Some? ==> r.value in TagKeys
    decreases |s| - p
  {
    if p == 0 && TagAt(s, TagPrefixes).Some? then TagAt(s, TagPrefixes)
    else if p < |s| && IsSpace(s[p]) && TagAt(s[p + 1..], TagPrefixes).Some? then TagAt(s[p + 1..], TagPrefixes)
    else if p < |s| then DirectTagFrom(s, p + 1)
    else None
  }

  /** The key of the leftmost match of
      /(?:^|\s)(?:type:|category:|#)(kids|workshops|concerts|corporate)\b/. */
  function DirectTag(s: string): Option<string> {
    DirectTagFrom(s, 0)
  }

  /** A tag may start at position `i`: at the very start or right after white space. */
  predicate TagStartsAt(s: string, i: nat)
    requires i <= |s|
  {
    (i == 0 || IsSpace(s[i - 1])) && TagAt(s[i..], TagPrefixes).Some?
  }

  /** Reference reading: the tag at the first position from `i` on where one may start. */
  function FirstTagFrom(s: string, i: nat): Option<string>
    decreases |s| + 1 - i
  {
    if i > |s| then None
    else if TagStartsAt(s, i) then TagAt(s[i..], TagPrefixes)
    else FirstTagFrom(s, i + 1)
  }

  lemma {:induction false} DirectTagFromScans(s: string, p: nat)
    requires p <= |s|
    ensures DirectTagFrom(s, p)
            == if p == 0 && TagAt(s, TagPrefixes).Some? then TagAt(s, TagPrefixes) else FirstTagFrom(s, p + 1)
    decreases |s| - p
  {
    if p == 0 && TagAt(s, TagPrefixes).Some? {
    } else if p < |s| {
      DirectTagFromScans(s, p + 1);
    }
  }

  /** The regular-expression scan finds the tag at the first position where one may start. */
  lemma DirectTagIsFirstTag(s: string)
    ensures DirectTag(s) == FirstTagFrom(s, 0)
  {
    DirectTagFromScans(s, 0);
    assert s[0..] == s;
  }

  /** FirstTagFrom finds a tag exactly when one may start somewhere, and
      then it is the one at the first such position. */
  lemma {:induction false} FirstTagFromSpec(s: string, i: nat)
    ensures FirstTagFrom(s, i).Some? <==> exists j :: i <= j <= |s| && TagStartsAt(s, j)
    ensures FirstTagFrom(s, i).Some? ==>
      exists j :: i <= j <= |s| && TagStartsAt(s, j) && FirstTagFrom(s, i) == TagAt(s[j..], TagPrefixes)
                  && forall m :: i <= m < j ==> !TagStartsAt(s, m)
    decreases |s| + 1 - i
  {
    if i <= |s| && !TagStartsAt(s, i) {
      FirstTagFromSpec(s, i + 1);
      if FirstTagFrom(s, i + 1).Some? {
        var j :| i + 1 <= j <= |s| && TagStartsAt(s, j) && FirstTagFrom(s, i + 1) == TagAt(s[j..], TagPrefixes)
                 && forall m :: i + 1 <= m < j ==> !TagStartsAt(s, m);
        assert forall m :: i <= m < j ==> !TagStartsAt(s, m);
      }
    }
  }

  /** Some keyword of the category occurs in the text. */
  predicate Mentions(haystack: string, c: Category) {
    exists i :: 0 <= i < |c.keywords| && Contains(haystack, c.keywords[i])
  }

  /** The key of the first category, in configured order, that the text mentions. */
  function FirstMentioned(haystack: string, categories: seq<Category>): (r: Option<string>)
    ensures r.None? <==> forall i :: 0 <= i < |categories| ==> !Mentions(haystack, categories[i])
    ensures r.Some? ==> exists i :: 0 <= i < |categories| && categories[i].key == r.value
                          && Mentions(haystack, categories[i])
                          && forall j :: 0 <= j < i ==> !Mentions(haystack, categories[j])
  {
    if categories == [] then None
    else if Mentions(haystack, categories[0]) then Some(categories[0].key)
    else
      var r := FirstMentioned(haystack, categories[1..]);
      assert forall i :: 1 <= i < |categories| ==> categories[i] == categories[1..][i - 1];
      r
  }

  function OrEmpty(v: Option<string>): string {
    match v
    case None => ""
    case Some(x) => x
  }

  /** The lower-cased text keywords are looked for in: title, description and location. */
  function Haystack(e: CalendarEvent): string {
    ToLower(e.title + " " + ToLower(OrEmpty(e.description)) + " " + OrEmpty(e.location))
  }

  /** resolveCategoryKey with the configured categories and default key. */
  function ResolveCategoryKey(e: CalendarEvent, categories: seq<Category>, defaultKey: string): (r: string)
    ensures r == defaultKey || r in TagKeys || exists i :: 0 <= i < |categories| && categories[i].key == r
  {
    match DirectTag(ToLower(OrEmpty(e.description)))
    case Some(k) => k
    case None =>
      match FirstMentioned(Haystack(e), categories)
      case Some(k) => k
      case None => defaultKey
  }

  /** Without a description tag, the first mentioned category wins, and the
      default key is used only when no category is mentioned at all. */
  lemma KeywordsDecideWithoutTag(e: CalendarEvent, categories: seq<Category>, defaultKey: string)
    requires DirectTag(ToLower(OrEmpty(e.description))).None?
    ensures ResolveCategoryKey(e, categories, defaultKey) == defaultKey
            <== forall i :: 0 <= i < |categories| ==> !Mentions(Haystack(e), categories[i])
    ensures forall i :: 0 <= i < |categories| && Mentions(Haystack(e), categories[i])
                        && (forall j :: 0 <= j < i ==> !Mentions(Haystack(e), categories[j]))
                        ==> ResolveCategoryKey(e, categories, defaultKey) == categories[i].key
  {
    forall i | 0 <= i < |categories| && Mentions(Haystack(e), categories[i])
               && (forall j :: 0 <= j < i ==> !Mentions(Haystack(e), categories[j]))
      ensures ResolveCategoryKey(e, categories, defaultKey) == categories[i].key
    {
      var r := FirstMentioned(Haystack(e), categories);
      assert r.Some?;
      var i' :| 0 <= i' < |categories| && categories[i'].key == r.value
                && Mentions(Haystack(e), categories[i'])
                && forall j :: 0 <= j < i' ==> !Mentions(Haystack(e), categories[j]);
      assert i' == i;
    }
  }

  /** Every character a text contains through a keyword is in the text. */
  lemma {:induction false} ContainsChar(h: string, kw: string, c: char)
    requires Contains(h, kw) && c in kw
    ensures c in h
  {
    if PrefixMatch(h, kw, false) {
      PrefixMatchChars(h, kw);
      assert c in h[..|kw|];
    } else {
      ContainsChar(h[1..], kw, c);
    }
  }

  /** The haystack is lower-cased but the keywords are not: a keyword with
      an upper-case letter never matches. */
  lemma UppercaseKeywordNeverMatches(e: CalendarEvent, kw: string, i: nat)
    requires i < |kw| && 'A' <= kw[i] <= 'Z'
    ensures !Contains(Haystack(e), kw)
  {
    if Contains(Haystack(e), kw) {
      ContainsChar(Haystack(e), kw, kw[i]);
      assert false;
    }
  }

  /** Keys that differ at position `i` cannot both match one text. */
  lemma KeysDiffer(s: string, a: string, b: string, i: nat)
    requires i < |a| && i < |b| && a[i] != b[i] && PrefixMatch(s, a, false)
    ensures !PrefixMatch(s, b, false)
  {
    PrefixMatchAt(s, a, false, i);
    if PrefixMatch(s, b, false) {
      PrefixMatchAt(s, b, false, i);
    }
  }

  /** A text that starts with a tag key as a whole word reads as that key. */
  lemma KeyAtOwnKey(key: string, rest: string)
    requires key in TagKeys
    requires rest == [] || !IsWordChar(rest[0])
    ensures KeyAt(key + rest, TagKeys) == Some(key)
  {
    var s := key + rest;
    PrefixMatchSelf(key, rest, false);
    assert WordEndsAt(s, |key|);
    assert TagKeys[1..] == ["workshops", "concerts", "corporate"];
    assert TagKeys[1..][1..] == ["concerts", "corporate"];
    assert TagKeys[1..][1..][1..] == ["corporate"];
    if key != "kids" {
      KeysDiffer(s, key, "kids", 0);
      if key != "workshops" {
        KeysDiffer(s, key, "workshops", 0);
        if key != "concerts" {
          KeysDiffer(s, key, "concerts", 2);
        }
      }
    }
  }

  /** A `#key` tag at the start of the description decides the category,
      whatever keywords the configured categories carry. */
  lemma HashTagWins(e: CalendarEvent, key: string, rest: string, categories: seq<Category>, defaultKey: string)
    requires key in TagKeys
    requires e.description == Some("#" + key + rest)
    requires rest == [] || !IsWordChar(LowerChar(rest[0]))
    ensures ResolveCategoryKey(e, categories, defaultKey) == key
  {
    var d := ToLower(OrEmpty(e.description));
    var lr := ToLower(rest);
    assert forall i :: 0 <= i < |key| ==> LowerChar(key[i]) == key[i];
    assert d == "#" + (key + lr);
    KeyAtOwnKey(key, lr);
    PrefixMismatch(d, "type:", false);
    PrefixMismatch(d, "category:", false);
    PrefixMatchSelf("#", key + lr, false);
    assert TagPrefixes[1..][1..] == ["#"];
    assert d[|"#"|..] == key + lr;
    assert TagAt(d, TagPrefixes) == Some(key);
  }
}
