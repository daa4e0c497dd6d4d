/** The text shown on one article card: the description with HTML tags
    removed (the global regular expression `/<[^>]*>/g` replaced by the empty
    string), the "Recently" fallback of the date label and the capitalised
    category badge. */
module NewsCard {
  import opened Wrappers
  import opened Strings
  import opened Server

  /** Index of the first '>' of `s`. */
  function FirstClose(s: string): (r: Option<nat>)
    ensures r.Some? ==> r.value < |s| && s[r.value] == '>' && '>' !in s[..r.value]
    ensures r.None? <==> '>' !in s
  {
    if s == [] then None
    else if s[0] == '>' then Some(0)
    else
      var r := FirstClose(s[1..]);
      assert s == [s[0]] + s[1..];
      if r.Some? then
        assert s[..r.value + 1] == [s[0]] + s[1..][..r.value];
        Some(r.value + 1)
      else None
  }

  /** `text.replace(/<[^>]*>/g, '')`: scanning from the left, a '<' that has
      a '>' after it starts a tag running to the first such '>', and the
      whole tag is dropped; every other character is kept. */
  function StripTags(s: string): (r: string)
    ensures |r| <= |s|
    decreases |s|
  {
    if s == [] then []
    else if s[0] == '<' && FirstClose(s).Some? then
      StripTags(s[FirstClose(s).value + 1..])
    else
      [s[0]] + StripTags(s[1..])
  }

  /** No '<' in `s` has a '>' anywhere after it: the regular expression finds
      no tag. */
  predicate TagFree(s: string) {
    forall i, j :: 0 <= i < j < |s| && s[i] == '<' ==> s[j] != '>'
  }

  /** `a` is `b` with some characters removed, the rest in order. */
  predicate IsSubsequence(a: string, b: string)
    decreases |b|
  {
    if a == [] then true
    else if b == [] then false
    else if a[0] == b[0] then IsSubsequence(a[1..], b[1..])
    else IsSubsequence(a, b[1..])
  }

  /** A subsequence of a suffix of `b` is one of `b`. */
  lemma {:induction false} SubsequenceOfLonger(a: string, b: string, k: nat)
    requires k <= |b|
    requires IsSubsequence(a, b[k..])
    ensures IsSubsequence(a, b)
    decreases k
  {
    if k > 0 {
      assert b[k..] == b[1..][k - 1..];
      SubsequenceOfLonger(a, b[1..], k - 1);
      SubsequenceTail(a, b);
    }
  }

  /** A subsequence of the tail of `b` is one of `b`. */
  lemma {:induction false} SubsequenceTail(a: string, b: string)
    requires b != []
    requires IsSubsequence(a, b[1..])
    ensures IsSubsequence(a, b)
    decreases 2 * |b|
  {
    if a != [] && a[0] == b[0] {
      SubsequenceDropHead(a, b[1..]);
    }
  }

  /** Dropping the first character of a subsequence keeps it one. */
  lemma {:induction false} SubsequenceDropHead(a: string, c: string)
    requires a != []
    requires IsSubsequence(a, c)
    ensures IsSubsequence(a[1..], c)
    decreases 2 * |c| + 1
  {
    if a[0] == c[0] {
      if c[1..] != [] || a[1..] == [] {
        if a[1..] != [] {
          SubsequenceTail(a[1..], c);
        }
      }
    } else {
      SubsequenceDropHead(a, c[1..]);
      SubsequenceTail(a[1..], c);
    }
  }

  /** Stripping only removes characters: what remains is a subsequence of
      the input, in the input's order. */
  lemma {:induction false} StripTagsIsSubsequence(s: string)
    ensures IsSubsequence(StripTags(s), s)
    decreases |s|
  {
    if s != [] {
      if s[0] == '<' && FirstClose(s).Some? {
        var k := FirstClose(s).value + 1;
        StripTagsIsSubsequence(s[k..]);
        SubsequenceOfLonger(StripTags(s), s, k);
      } else {
        StripTagsIsSubsequence(s[1..]);
      }
    }
  }

  /** Every character of the stripped text occurs in the input. */
  lemma {:induction false} StripTagsKeepsCharacters(s: string, c: char)
    requires c in StripTags(s)
    ensures c in s
    decreases |s|
  {
    if s[0] == '<' && FirstClose(s).Some? {
      var k := FirstClose(s).value + 1;
      StripTagsKeepsCharacters(s[k..], c);
      assert s[k..] == s[k..|s|];
    } else if c != s[0] {
      StripTagsKeepsCharacters(s[1..], c);
    }
  }

  /** A tag, '<' then anything without '>' then '>', is deleted. */
  lemma StripTagsDropsTag(m: string, rest: string)
    requires '>' !in m
    ensures StripTags(['<'] + m + ['>'] + rest) == StripTags(rest)
  {
    var s := ['<'] + m + ['>'] + rest;
    assert s[1..] == m + ['>'] + rest;
    FirstCloseAfter(m, rest);
    assert FirstClose(s[1..]) == Some(|m|);
    assert s[0] != '>';
    assert FirstClose(s) == Some(|m| + 1);
    assert s[|m| + 2..] == rest;
  }

  lemma {:induction false} FirstCloseAfter(m: string, rest: string)
    requires '>' !in m
    ensures FirstClose(m + ['>'] + rest) == Some(|m|)
    decreases |m|
  {
    var s := m + ['>'] + rest;
    if m != [] {
      assert s[1..] == m[1..] + ['>'] + rest;
      FirstCloseAfter(m[1..], rest);
    }
  }

  /** Text before the first '<' is kept as it is. */
  lemma {:induction false} StripTagsKeepsPlainPrefix(x: string, rest: string)
    requires '<' !in x
    ensures StripTags(x + rest) == x + StripTags(rest)
    decreases |x|
  {
    if x != [] {
      var s := x + rest;
      assert s[0] == x[0] && s[0] != '<';
      assert s[1..] == x[1..] + rest;
      StripTagsKeepsPlainPrefix(x[1..], rest);
      assert StripTags(s) == [s[0]] + StripTags(s[1..]);
      assert [x[0]] + (x[1..] + StripTags(rest)) == x + StripTags(rest);
    } else {
      assert x + rest == rest;
    }
  }

  /** Text with no '>' is unchanged, whatever '<' it holds: an unclosed '<'
      starts no tag. */
  lemma {:induction false} StripTagsKeepsUnclosed(s: string)
    requires '>' !in s
    ensures StripTags(s) == s
    decreases |s|
  {
    if s != [] {
      StripTagsKeepsUnclosed(s[1..]);
    }
  }

  /** Text with no '<' is unchanged. */
  lemma {:induction false} StripTagsKeepsTextWithoutOpen(s: string)
    requires '<' !in s
    ensures StripTags(s) == s
  {
    StripTagsKeepsPlainPrefix(s, []);
    assert s + [] == s;
  }

  /** After stripping, no tag is left. */
  lemma {:induction false} StripTagsIsTagFree(s: string)
    ensures TagFree(StripTags(s))
    decreases |s|
  {
    if s != [] {
      if s[0] == '<' && FirstClose(s).Some? {
        StripTagsIsTagFree(s[FirstClose(s).value + 1..]);
      } else {
        var tail := StripTags(s[1..]);
        StripTagsIsTagFree(s[1..]);
        if s[0] == '<' {
          forall j | 0 <= j < |tail|
            ensures tail[j] != '>'
          {
            if tail[j] == '>' {
              StripTagsKeepsCharacters(s[1..], '>');
              assert false;
            }
          }
        }
        var r := [s[0]] + tail;
        forall i, j | 0 <= i < j < |r| && r[i] == '<'
          ensures r[j] != '>'
        {
          if i > 0 {
            assert r[i] == tail[i - 1] && r[j] == tail[j - 1];
          } else {
            assert r[j] == tail[j - 1];
          }
        }
      }
    }
  }

  /** Text with no tag in it is unchanged. */
  lemma {:induction false} StripTagsKeepsTagFree(s: string)
    requires TagFree(s)
    ensures StripTags(s) == s
    decreases |s|
  {
    if s != [] {
      if s[0] == '<' {
        assert forall j :: 1 <= j < |s| ==> s[j] != '>';
        assert '>' !in s[1..];
        assert '>' !in s;
        StripTagsKeepsUnclosed(s);
      } else {
        assert TagFree(s[1..]) by {
          forall i, j | 0 <= i < j < |s[1..]| && s[1..][i] == '<'
            ensures s[1..][j] != '>'
          {
            assert s[i + 1] == '<';
          }
        }
        StripTagsKeepsTagFree(s[1..]);
      }
    }
  }

  /** Stripping twice is stripping once. */
  lemma StripTagsIdempotent(s: string)
    ensures StripTags(StripTags(s)) == StripTags(s)
  {
    StripTagsIsTagFree(s);
    StripTagsKeepsTagFree(StripTags(s));
  }

  /** The backend cuts the summary to 500 characters before the card strips
      tags, so a tag cut in half is no longer closed and its opening part
      stays on the card as text: 499 letters followed by "<b>" show as the
      letters alone when whole, but as the letters and "<" once cut. */
  lemma CutTagStaysVisible()
    ensures var summary := seq(499, _ => 'a') + "<b>";
      && StripTags(summary) == seq(499, _ => 'a')
      && StripTags(Description(Some(summary))) == seq(499, _ => 'a') + "<"
  {
    var text := seq(499, _ => 'a');
    var summary := text + "<b>";
    assert '<' !in text;
    StripTagsKeepsPlainPrefix(text, "<b>");
    StripTagsDropsTag("b", []);
    assert ['<'] + "b" + ['>'] + [] == "<b>";
    assert text + [] == text;
    assert summary[..500] == text + "<";
    StripTagsKeepsPlainPrefix(text, "<");
    StripTagsKeepsUnclosed("<");
  }

  // ---------------------------------------------------------------------
  // Date label and category badge

  /** The label under the title: "Recently", or the locale rendering of the
      publication date (not modelled; carried as the raw value). */
  datatype DateLabel = Recently | LocaleDate(raw: string)

  /** `formatDate`: an absent or empty publication value reads "Recently". */
  function FormatDate(published: Option<string>): (shown: DateLabel)
    ensures shown == Recently <==> published.None? || published.value == ""
    ensures shown.LocaleDate? ==> Some(shown.raw) == published
  {
    if published.None? || published.value == "" then Recently
    else LocaleDate(published.value)
  }

  /** `s.charAt(0).toUpperCase() + s.slice(1)`, with ASCII case mapping. */
  function Capitalize(s: string): (r: string)
    ensures |r| == |s|
    ensures s != [] ==> r[0] == AsciiUpper(s[0]) && r[1..] == s[1..]
  {
    if s == [] then [] else [AsciiUpper(s[0])] + s[1..]
  }

  /** The category badge: shown only for a present, non-empty category. */
  function CategoryBadge(category: Option<string>): (badge: Option<string>)
    ensures badge.Some? <==> category.Some? && category.value != ""
    ensures badge.Some? ==> |badge.value| == |category.value|
    ensures badge.Some? ==> badge.value[0] == AsciiUpper(category.value[0])
    ensures badge.Some? ==> badge.value[1..] == category.value[1..]
  {
    if category.None? || category.value == "" then None
    else Some(Capitalize(category.value))
  }

  /** Every advertised category id is shown on the badge as its taxonomy
      name, except "nation", which the filter calls "National" and the badge
      calls "Nation". */
  lemma TaxonomyBadges()
    ensures forall k :: 0 <= k < |GetNewsCategories().categories| && k != 2 ==>
      CategoryBadge(Some(GetNewsCategories().categories[k].id)) == Some(GetNewsCategories().categories[k].name)
    ensures GetNewsCategories().categories[2] == TaxonomyEntry("nation", "National")
    ensures CategoryBadge(Some("nation")) == Some("Nation")
  {
    var cs := GetNewsCategories().categories;
    forall k | 0 <= k < |cs| && k != 2
      ensures CategoryBadge(Some(cs[k].id)) == Some(cs[k].name)
    {
      if k == 0 {
        BadgeOfLowerWord("general", "General");
      } else if k == 1 {
        BadgeOfLowerWord("world", "World");
      } else if k == 3 {
        BadgeOfLowerWord("business", "Business");
      } else if k == 4 {
        BadgeOfLowerWord("technology", "Technology");
      } else if k == 5 {
        BadgeOfLowerWord("entertainment", "Entertainment");
      } else if k == 6 {
        BadgeOfLowerWord("sports", "Sports");
      } else if k == 7 {
        BadgeOfLowerWord("science", "Science");
      } else if k == 8 {
        BadgeOfLowerWord("health", "Health");
      }
    }
    BadgeOfLowerWord("nation", "Nation");
  }

  /** The badge of a word with a lower-case initial is the word with that
      initial upper-cased. */
  lemma BadgeOfLowerWord(word: string, badge: string)
    requires word != [] && IsAsciiLower(word[0])
    requires |badge| == |word| && badge[0] as int == word[0] as int - 32 && badge[1..] == word[1..]
    ensures CategoryBadge(Some(word)) == Some(badge)
  {
    assert badge == [badge[0]] + badge[1..];
  }

  /** What one card shows. */
  datatype CardView = CardView(
    title: string,
    source: string,
    date: DateLabel,
    badge: Option<string>,
    description: Option<string>)

  /** `NewsCard`: the description block appears only for a non-empty
      description, and then shows it with its tags stripped. */
  function RenderCard(a: Article): (v: CardView)
    ensures v.title == a.title && v.source == a.source
    ensures v.date == Recently <==> a.published.None? || a.published.value == ""
    ensures v.badge.Some? <==> a.category.Some? && a.category.value != ""
    ensures v.description.Some? <==> a.description != ""
    ensures v.description.Some? ==>
      IsSubsequence(v.description.value, a.description) && TagFree(v.description.value)
    ensures v.description.Some? ==> v.description.value == StripTags(a.description)
    ensures v.badge == CategoryBadge(a.category)
    ensures v.date == FormatDate(a.published)
  {
    StripTagsIsSubsequence(a.description);
    StripTagsIsTagFree(a.description);
    var description := if a.description == "" then None else Some(StripTags(a.description));
    CardView(a.title, a.source, FormatDate(a.published), CategoryBadge(a.category), description)
  }
}
