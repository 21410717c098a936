/**
 * `cleanHtml` of the RSS reader: decode five entities, drop anything that
 * looks like a tag, collapse whitespace runs, trim.
 */
module Html {
  import opened Text

  /** Entity decoding: one `replace` pass per entity, in this fixed order. */
  function DecodeEntities(s: string): string {
    var lt := ReplaceAll(s, "&lt;", "<");
    var gt := ReplaceAll(lt, "&gt;", ">");
    var quot := ReplaceAll(gt, "&quot;", "\"");
    var amp := ReplaceAll(quot, "&amp;", "&");
    ReplaceAll(amp, "&apos;", "'")
  }

  /** A pass that cannot match after the first character changes nothing. */
  lemma ReplaceNowhere(s: string, pattern: string, replacement: string)
    requires pattern != [] && s != [] && !StartsWith(s, pattern) && pattern[0] !in s[1..]
    ensures ReplaceAll(s, pattern, replacement) == s
  {
    ReplaceAllAbsent(s[1..], pattern, replacement);
  }

  /** A pass that matches at the start and nowhere after it. */
  lemma ReplaceOnlyAtStart(s: string, pattern: string, replacement: string)
    requires pattern != [] && StartsWith(s, pattern) && pattern[0] !in s[|pattern|..]
    ensures ReplaceAll(s, pattern, replacement) == replacement + s[|pattern|..]
  {
    ReplaceAllAbsent(s[|pattern|..], pattern, replacement);
  }

  /** A pass for an entity other than `&amp;` leaves text starting with `&a` alone when no other `&` follows. */
  lemma ReplaceSkipsLeadingAmp(s: string, pattern: string, replacement: string)
    requires |s| >= 2 && s[0] == '&' && s[1] == 'a' && '&' !in s[1..]
    requires |pattern| >= 2 && pattern[0] == '&' && pattern[1] != 'a'
    ensures ReplaceAll(s, pattern, replacement) == s
  {
    assert |pattern| <= |s| ==> s[..|pattern|][1] != pattern[1];
    ReplaceNowhere(s, pattern, replacement);
  }

  /** The `&lt;`, `&gt;` and `&quot;` passes leave text starting with `&a` alone when no other `&` follows. */
  lemma LeadingAmpSurvivesFirstPasses(s: string)
    requires |s| >= 2 && s[0] == '&' && s[1] == 'a' && '&' !in s[1..]
    ensures ReplaceAll(ReplaceAll(ReplaceAll(s, "&lt;", "<"), "&gt;", ">"), "&quot;", "\"") == s
  {
    LeadingAmpSurvivesPasses(s, "&lt;", "<", "&gt;", ">", "&quot;", "\"");
  }

  /** Three passes for entities other than `&amp;` in a row, with the entities left abstract. */
  lemma LeadingAmpSurvivesPasses(s: string, p1: string, r1: string, p2: string, r2: string, p3: string, r3: string)
    requires |s| >= 2 && s[0] == '&' && s[1] == 'a' && '&' !in s[1..]
    requires |p1| >= 2 && p1[0] == '&' && p1[1] != 'a'
    requires |p2| >= 2 && p2[0] == '&' && p2[1] != 'a'
    requires |p3| >= 2 && p3[0] == '&' && p3[1] != 'a'
    ensures ReplaceAll(ReplaceAll(ReplaceAll(s, p1, r1), p2, r2), p3, r3) == s
  {
    ReplaceSkipsLeadingAmp(s, p1, r1);
    ReplaceSkipsLeadingAmp(s, p2, r2);
    ReplaceSkipsLeadingAmp(s, p3, r3);
  }

  /**
   * An escaped ampersand passes the first three passes untouched and is
   * decoded by the fourth, so only the `&apos;` pass still sees what follows.
   */
  lemma EscapedAmpDecoded(t: string)
    requires '&' !in t
    ensures DecodeEntities("&amp;" + t) == ReplaceAll("&" + t, "&apos;", "'")
  {
    var s := "&amp;" + t;
    assert ReplaceAll(ReplaceAll(ReplaceAll(s, "&lt;", "<"), "&gt;", ">"), "&quot;", "\"") == s by {
      assert s[1..] == "amp;" + t;
      LeadingAmpSurvivesFirstPasses(s);
    }
    assert ReplaceAll(s, "&amp;", "&") == "&" + t by {
      assert s[..5] == "&amp;" && s[5..] == t;
      ReplaceOnlyAtStart(s, "&amp;", "&");
    }
  }

  /**
   * Passes never revisit their output: an escaped `&lt;` is decoded to
   * `&lt;` and no further.
   */
  lemma EscapedLtDecodedOnce(t: string)
    requires '&' !in t
    ensures DecodeEntities("&amp;lt;" + t) == "&lt;" + t
  {
    var r := "&lt;" + t;
    assert "&amp;lt;" + t == "&amp;" + ("lt;" + t);
    assert "&" + ("lt;" + t) == r;
    EscapedAmpDecoded("lt;" + t);
    assert ReplaceAll(r, "&apos;", "'") == r by {
      assert r[1..] == "lt;" + t;
      assert |r| >= 6 ==> r[..6][1] == 'l';
      ReplaceNowhere(r, "&apos;", "'");
    }
  }

  /** `&apos;` is decoded after `&amp;`, so even an escaped `&apos;` becomes a quote. */
  lemma EscapedAposDecodedTwice(t: string)
    requires '&' !in t
    ensures DecodeEntities("&amp;apos;" + t) == "'" + t
  {
    var r := "&apos;" + t;
    assert "&amp;apos;" + t == "&amp;" + ("apos;" + t);
    assert "&" + ("apos;" + t) == r;
    EscapedAmpDecoded("apos;" + t);
    assert ReplaceAll(r, "&apos;", "'") == "'" + t by {
      assert r[..6] == "&apos;" && r[6..] == t;
      ReplaceOnlyAtStart(r, "&apos;", "'");
    }
  }

  /** The last pass removes every `&apos;`, escaped or not. */
  lemma DecodedHasNoApos(s: string)
    ensures !Contains(DecodeEntities(s), "&apos;")
  {
    var lt := ReplaceAll(s, "&lt;", "<");
    var gt := ReplaceAll(lt, "&gt;", ">");
    var quot := ReplaceAll(gt, "&quot;", "\"");
    var amp := ReplaceAll(quot, "&amp;", "&");
    ReplaceAllRemoves(amp, "&apos;", '\'');
  }

  /** Text without `&` has no entity to decode. */
  lemma DecodeEntitiesPlain(s: string)
    requires '&' !in s
    ensures DecodeEntities(s) == s
  {
    ReplaceAllAbsent(s, "&lt;", "<");
    ReplaceAllAbsent(s, "&gt;", ">");
    ReplaceAllAbsent(s, "&quot;", "\"");
    ReplaceAllAbsent(s, "&amp;", "&");
    ReplaceAllAbsent(s, "&apos;", "'");
  }

  /** Index of the first `c` in `s`, or `|s|` when there is none. */
  function IndexOfChar(s: string, c: char): (i: nat)
    ensures i <= |s|
    ensures i < |s| ==> s[i] == c
    ensures forall j :: 0 <= j < i ==> s[j] != c
  {
    if s == [] then 0 else if s[0] == c then 0 else 1 + IndexOfChar(s[1..], c)
  }

  /**
   * `replace(Regex("<[^>]*>"), "")`: scanning left to right, a `<` that has a
   * `>` somewhere after it starts a match running to the first such `>`,
   * which is removed; a `<` with no `>` after it stays.
   */
  function StripTags(s: string): string
    decreases |s|
  {
    if s == [] then []
    else if s[0] == '<' && IndexOfChar(s, '>') < |s| then StripTags(s[IndexOfChar(s, '>') + 1..])
    else [s[0]] + StripTags(s[1..])
  }

  /** No `<` is followed, anywhere later, by a `>`. */
  predicate NoTagPair(s: string) {
    forall i, j :: 0 <= i < j < |s| && s[i] == '<' ==> s[j] != '>'
  }

  lemma NoTagPairCons(c: char, t: string)
    ensures NoTagPair([c] + t) <==> (c == '<' ==> '>' !in t) && NoTagPair(t)
  {
    var s := [c] + t;
    if NoTagPair(s) {
      forall i, j | 0 <= i < j < |t| && t[i] == '<' ensures t[j] != '>' {
        assert s[i + 1] == t[i] && s[j + 1] == t[j];
      }
      forall j | 0 <= j < |t| ensures c == '<' ==> t[j] != '>' {
        assert s[0] == c && s[j + 1] == t[j];
      }
    }
    if (c == '<' ==> '>' !in t) && NoTagPair(t) {
      forall i, j | 0 <= i < j < |s| && s[i] == '<' ensures s[j] != '>' {
        assert s[j] == t[j - 1];
        if i > 0 { assert s[i] == t[i - 1]; }
      }
    }
  }

  /** `a` is `b` with some characters deleted: each step keeps or drops the head of `b`. */
  predicate Subsequence(a: string, b: string)
    decreases |b|
  {
    if b == [] then a == []
    else (a != [] && a[0] == b[0] && Subsequence(a[1..], b[1..])) || Subsequence(a, b[1..])
  }

  /** Dropping a prefix of `b` first still leaves a subsequence of `b`. */
  lemma {:induction false} SubsequenceOfSuffix(a: string, b: string, k: nat)
    requires k <= |b| && Subsequence(a, b[k..])
    ensures Subsequence(a, b)
    decreases k
  {
    if k > 0 {
      assert b[1..][k - 1..] == b[k..];
      SubsequenceOfSuffix(a, b[1..], k - 1);
    }
  }

  /** Stripping only removes characters: the result is a subsequence of the input. */
  lemma {:induction false} StripTagsChars(s: string)
    ensures forall i :: 0 <= i < |StripTags(s)| ==> StripTags(s)[i] in s
    ensures Subsequence(StripTags(s), s)
    decreases |s|
  {
    if s != [] {
      var k := IndexOfChar(s, '>');
      if s[0] == '<' && k < |s| {
        StripTagsChars(s[k + 1..]);
        assert forall c :: c in s[k + 1..] ==> c in s;
        SubsequenceOfSuffix(StripTags(s), s, k + 1);
      } else {
        var rest := StripTags(s[1..]);
        StripTagsChars(s[1..]);
        assert forall c :: c in s[1..] ==> c in s;
        assert StripTags(s) == [s[0]] + rest;
        assert ([s[0]] + rest)[1..] == rest;
      }
    }
  }

  /** After stripping, no `<` is ever followed by a `>`. */
  lemma {:induction false} StripTagsNoTagPair(s: string)
    ensures NoTagPair(StripTags(s))
    decreases |s|
  {
    if s != [] {
      var k := IndexOfChar(s, '>');
      if s[0] == '<' && k < |s| {
        StripTagsNoTagPair(s[k + 1..]);
      } else {
        var rest := StripTags(s[1..]);
        StripTagsNoTagPair(s[1..]);
        StripTagsChars(s[1..]);
        if s[0] == '<' {
          assert '>' !in s;
          assert '>' !in rest;
        }
        NoTagPairCons(s[0], rest);
      }
    }
  }

  /** `IndexOfChar` finds the closing `>` of a tag whose body has none. */
  lemma IndexOfTagEnd(t: string, b: string)
    requires '>' !in t
    ensures IndexOfChar("<" + t + ">" + b, '>') == |t| + 1
  {
    var s := "<" + t + ">" + b;
    assert s[|t| + 1] == '>';
    forall j | 0 <= j < |t| + 1 ensures s[j] != '>' {
      if j > 0 { assert s[j] == t[j - 1]; }
    }
  }

  /** A `<` with no `>` anywhere after it is not a tag: text with no `<`…`>` pair is kept whole. */
  lemma {:induction false} StripTagsUnclosed(s: string)
    requires NoTagPair(s)
    ensures StripTags(s) == s
    decreases |s|
  {
    if s != [] {
      NoTagPairCons(s[0], s[1..]);
      assert s == [s[0]] + s[1..];
      if s[0] == '<' {
        assert IndexOfChar(s, '>') == |s|;
      }
      StripTagsUnclosed(s[1..]);
    }
  }

  /** A leading tag is removed and stripping continues after it. */
  lemma StripTagsLeadingTag(t: string, b: string)
    requires '>' !in t
    ensures StripTags("<" + t + ">" + b) == StripTags(b)
  {
    var s := "<" + t + ">" + b;
    IndexOfTagEnd(t, b);
    assert s[|t| + 2..] == b;
  }

  /**
   * A tag is removed and the text before it is kept: with no `<` in `a` and
   * no `>` in `t`, the first tag is `<t>`, and stripping continues after it.
   */
  lemma {:induction false} StripTagsRemovesTag(a: string, t: string, b: string)
    requires '<' !in a && '>' !in t
    ensures StripTags(a + "<" + t + ">" + b) == a + StripTags(b)
    decreases |a|
  {
    var s := a + "<" + t + ">" + b;
    if a == [] {
      assert s == "<" + t + ">" + b;
      StripTagsLeadingTag(t, b);
    } else {
      assert s[0] == a[0] && a[0] != '<';
      assert s[1..] == a[1..] + "<" + t + ">" + b;
      assert '<' !in a[1..];
      StripTagsRemovesTag(a[1..], t, b);
      assert a == [a[0]] + a[1..];
    }
  }

  /** Text without `<` has nothing to strip. */
  lemma {:induction false} StripTagsPlain(s: string)
    requires '<' !in s
    ensures StripTags(s) == s
    decreases |s|
  {
    if s != [] {
      StripTagsPlain(s[1..]);
    }
  }

  /** Length of the run of `\s` characters at the start of `s`. */
  function SpaceRun(s: string): (n: nat)
    ensures n <= |s|
    ensures forall i :: 0 <= i < n ==> IsRegexSpace(s[i])
    ensures n < |s| ==> !IsRegexSpace(s[n])
  {
    if s == [] || !IsRegexSpace(s[0]) then 0 else 1 + SpaceRun(s[1..])
  }

  /** Every `\s` is a plain space. */
  predicate OnlyPlainSpaces(s: string) {
    forall i :: 0 <= i < |s| && IsRegexSpace(s[i]) ==> s[i] == ' '
  }

  /** No two `\s` characters are adjacent. */
  predicate NoDoubleSpace(s: string) {
    forall i :: 1 <= i < |s| ==> !(IsRegexSpace(s[i - 1]) && IsRegexSpace(s[i]))
  }

  /** The characters of `s` other than `\s`, in order. */
  function NonSpace(s: string): string
    decreases |s|
  {
    if s == [] then [] else (if IsRegexSpace(s[0]) then [] else [s[0]]) + NonSpace(s[1..])
  }

  /** A leading run of `\s` contributes nothing to `NonSpace`. */
  lemma {:induction false} NonSpaceSkipsRun(s: string, n: nat)
    requires n <= |s|
    requires forall i :: 0 <= i < n ==> IsRegexSpace(s[i])
    ensures NonSpace(s[n..]) == NonSpace(s)
    decreases n
  {
    if n > 0 {
      assert s[1..][n - 1..] == s[n..];
      assert forall i :: 0 <= i < n - 1 ==> s[1..][i] == s[i + 1];
      NonSpaceSkipsRun(s[1..], n - 1);
    }
  }

  /** Prepending one character keeps the spacing properties when it cannot start a double space. */
  lemma ConsKeepsSpacing(c: char, t: string)
    requires OnlyPlainSpaces(t) && NoDoubleSpace(t)
    requires IsRegexSpace(c) ==> c == ' ' && (t != [] ==> !IsRegexSpace(t[0]))
    ensures OnlyPlainSpaces([c] + t) && NoDoubleSpace([c] + t)
  {
    var r := [c] + t;
    forall i | 1 <= i < |r| ensures !(IsRegexSpace(r[i - 1]) && IsRegexSpace(r[i])) {
      assert r[i] == t[i - 1];
      if i > 1 { assert r[i - 1] == t[i - 2]; }
    }
    forall i | 0 <= i < |r| && IsRegexSpace(r[i]) ensures r[i] == ' ' {
      if i > 0 { assert r[i] == t[i - 1]; }
    }
  }

  /**
   * `replace(Regex("\\s+"), " ")`: every maximal run of `\s` becomes one
   * space; everything else is kept, in order.
   */
  function CollapseSpaces(s: string): (r: string)
    ensures |r| == 0 <==> |s| == 0
    ensures |s| > 0 ==> r[0] == if IsRegexSpace(s[0]) then ' ' else s[0]
    ensures forall i :: 0 <= i < |r| ==> r[i] == ' ' || r[i] in s
    ensures NonSpace(r) == NonSpace(s)
    ensures OnlyPlainSpaces(r)
    ensures NoDoubleSpace(r)
    decreases |s|
  {
    if s == [] then []
    else if IsRegexSpace(s[0]) then
      var rest := s[SpaceRun(s)..];
      var tail := CollapseSpaces(rest);
      var r := [' '] + tail;
      assert forall c :: c in rest ==> c in s;
      assert r[1..] == tail;
      ConsKeepsSpacing(' ', tail);
      NonSpaceSkipsRun(s, SpaceRun(s));
      r
    else
      var tail := CollapseSpaces(s[1..]);
      var r := [s[0]] + tail;
      assert forall c :: c in s[1..] ==> c in s;
      assert r[1..] == tail;
      ConsKeepsSpacing(s[0], tail);
      r
  }

  /**
   * The replacement read one character at a time: the first `\s` of a run
   * becomes a space and the rest of the run is dropped. `inRun` says
   * whether the previous character was `\s`.
   */
  function Squeeze(s: string, inRun: bool): string
    decreases |s|
  {
    if s == [] then []
    else if !IsRegexSpace(s[0]) then [s[0]] + Squeeze(s[1..], false)
    else if inRun then Squeeze(s[1..], true)
    else [' '] + Squeeze(s[1..], true)
  }

  /** Inside a run, further `\s` characters are dropped. */
  lemma {:induction false} SqueezeSkipsRun(s: string, n: nat)
    requires n <= |s|
    requires forall i :: 0 <= i < n ==> IsRegexSpace(s[i])
    ensures Squeeze(s, true) == Squeeze(s[n..], true)
    decreases n
  {
    if n > 0 {
      assert s[1..][n - 1..] == s[n..];
      assert forall i :: 0 <= i < n - 1 ==> s[1..][i] == s[i + 1];
      SqueezeSkipsRun(s[1..], n - 1);
    }
  }

  /** A text starting with a `\s` run: one space, then the reading of what follows the run. */
  lemma SqueezeAfterRun(s: string)
    requires s != [] && IsRegexSpace(s[0])
    ensures Squeeze(s, false) == [' '] + Squeeze(s[SpaceRun(s)..], false)
  {
    var n := SpaceRun(s);
    var rest := s[n..];
    assert s[1..][n - 1..] == rest;
    assert forall i :: 0 <= i < n - 1 ==> s[1..][i] == s[i + 1];
    SqueezeSkipsRun(s[1..], n - 1);
    assert Squeeze(rest, true) == Squeeze(rest, false);
  }

  /** Collapsing whole runs agrees with the character-at-a-time reading. */
  lemma {:induction false} CollapseIsSqueeze(s: string)
    ensures CollapseSpaces(s) == Squeeze(s, false)
    decreases |s|
  {
    if s != [] {
      if IsRegexSpace(s[0]) {
        SqueezeAfterRun(s);
        CollapseIsSqueeze(s[SpaceRun(s)..]);
      } else {
        CollapseIsSqueeze(s[1..]);
      }
    }
  }

  /** Collapsing keeps a text free of tag pairs. */
  lemma {:induction false} CollapseNoTagPair(s: string)
    requires NoTagPair(s)
    ensures NoTagPair(CollapseSpaces(s))
    decreases |s|
  {
    if s != [] {
      var n := SpaceRun(s);
      var rest := if IsRegexSpace(s[0]) then s[n..] else s[1..];
      assert NoTagPair(rest) by {
        forall i, j | 0 <= i < j < |rest| && rest[i] == '<' ensures rest[j] != '>' {
          var d := |s| - |rest|;
          assert rest[i] == s[i + d] && rest[j] == s[j + d];
        }
      }
      CollapseNoTagPair(rest);
      if !IsRegexSpace(s[0]) && s[0] == '<' {
        assert '>' !in rest by {
          forall j | 0 <= j < |rest| ensures rest[j] != '>' {
            assert rest[j] == s[j + 1];
          }
        }
        assert '>' !in CollapseSpaces(rest);
      }
      NoTagPairCons(if IsRegexSpace(s[0]) then ' ' else s[0], CollapseSpaces(rest));
    }
  }

  /** Text whose only `\s` are single plain spaces is left as it is. */
  lemma {:induction false} CollapsePlain(s: string)
    requires OnlyPlainSpaces(s) && NoDoubleSpace(s)
    ensures CollapseSpaces(s) == s
    decreases |s|
  {
    if s != [] {
      assert OnlyPlainSpaces(s[1..]) && NoDoubleSpace(s[1..]) by {
        forall i | 1 <= i < |s[1..]| ensures !(IsRegexSpace(s[1..][i - 1]) && IsRegexSpace(s[1..][i])) {
          assert s[1..][i - 1] == s[i] && s[1..][i] == s[i + 1];
        }
      }
      if IsRegexSpace(s[0]) {
        assert |s| > 1 ==> !IsRegexSpace(s[1]);
        assert SpaceRun(s) == 1;
      }
      CollapsePlain(s[1..]);
    }
  }

  /** What `cleanHtml` guarantees of its output. */
  predicate IsClean(s: string) {
    Trimmed(s) && OnlyPlainSpaces(s) && NoDoubleSpace(s) && NoTagPair(s)
  }

  /** The interior properties hold of every slice. */
  lemma SliceKeepsInterior(s: string, lo: nat, hi: nat)
    requires lo <= hi <= |s|
    requires OnlyPlainSpaces(s) && NoDoubleSpace(s) && NoTagPair(s)
    ensures var t := s[lo..hi]; OnlyPlainSpaces(t) && NoDoubleSpace(t) && NoTagPair(t)
  {
    var t := s[lo..hi];
    forall i | 1 <= i < |t| ensures !(IsRegexSpace(t[i - 1]) && IsRegexSpace(t[i])) {
      assert t[i - 1] == s[lo + i - 1] && t[i] == s[lo + i];
    }
    forall i, j | 0 <= i < j < |t| && t[i] == '<' ensures t[j] != '>' {
      assert t[i] == s[lo + i] && t[j] == s[lo + j];
    }
  }

  /** `cleanHtml`. */
  function CleanHtml(text: string): string {
    Trim(CollapseSpaces(StripTags(DecodeEntities(text))))
  }

  /**
   * The output has no whitespace at either end, no `\s` other than single
   * plain spaces, and no `<` followed later by `>`.
   */
  lemma CleanHtmlIsClean(text: string)
    ensures IsClean(CleanHtml(text))
  {
    TidyIsClean(DecodeEntities(text));
  }

  /** The three steps after entity decoding produce clean text from any input. */
  lemma TidyIsClean(s: string)
    ensures IsClean(Trim(CollapseSpaces(StripTags(s))))
  {
    var stripped := StripTags(s);
    StripTagsNoTagPair(s);
    CollapseNoTagPair(stripped);
    TrimIsClean(CollapseSpaces(stripped));
  }

  /** Trimming text that is clean inside makes it clean. */
  lemma TrimIsClean(s: string)
    requires OnlyPlainSpaces(s) && NoDoubleSpace(s) && NoTagPair(s)
    ensures IsClean(Trim(s))
  {
    var r := Trim(s);
    var lo := LeadingWhitespace(s);
    assert r == s[lo..lo + |r|];
    SliceKeepsInterior(s, lo, lo + |r|);
    assert Trimmed(r);
  }

  /** Already clean text without `&` or `<` comes out unchanged. */
  lemma CleanHtmlKeepsCleanText(text: string)
    requires IsClean(text) && '&' !in text && '<' !in text
    ensures CleanHtml(text) == text
  {
    DecodeEntitiesPlain(text);
    StripTagsPlain(text);
    CollapsePlain(text);
    TrimOfTrimmed(text);
  }
}
