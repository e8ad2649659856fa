// `sanitize_user_input` of app/services/ai_service.py: the prompt-injection
// filter applied to every user message before it reaches the AI. Each
// regular expression of the source is written out as the left-to-right,
// leftmost-match scan Python's `re` performs.

module Sanitizer {
  import opened Common

  datatype Reason = XmlTags | CodeBlocks | SeparatorLines | LengthExceeded

  datatype Sanitized = Sanitized(text: string, reasons: seq<Reason>)

  const DefaultMaxLength: nat := 200
  const Fence: string := "```"

  // ---------------------------------------------------------------
  // Step 1: `<[^>]*>`, a '<' with some later '>'.

  predicate HasTag(s: string)
    decreases |s|
  {
    s != [] && ((s[0] == '<' && '>' in s[1..]) || HasTag(s[1..]))
  }

  function IndexOf(s: string, c: char): (r: nat)
    requires c in s
    ensures r < |s| && s[r] == c && c !in s[..r]
  {
    if s[0] == c then 0 else 1 + IndexOf(s[1..], c)
  }

  /** `re.sub(r'<[^>]*>', '', s)`: from each '<' that has a later '>',
      everything up to and including the first such '>' is removed. */
  function StripTags(s: string): (r: string)
    ensures |r| <= |s|
    decreases |s|
  {
    if s == [] then []
    else if s[0] == '<' && '>' in s[1..] then StripTags(s[IndexOf(s[1..], '>') + 2..])
    else [s[0]] + StripTags(s[1..])
  }

  lemma {:induction false} StripTagsChars(s: string)
    ensures forall c :: c in StripTags(s) ==> c in s
    decreases |s|
  {
    if s == [] {
    } else if s[0] == '<' && '>' in s[1..] {
      var k := IndexOf(s[1..], '>') + 2;
      StripTagsChars(s[k..]);
      assert forall c :: c in s[k..] ==> c in s;
    } else {
      StripTagsChars(s[1..]);
      assert forall c :: c in s[1..] ==> c in s;
    }
  }

  /** After the tag step no `<…>` tag is left. */
  lemma {:induction false} StripTagsLeavesNoTag(s: string)
    ensures !HasTag(StripTags(s))
    decreases |s|
  {
    if s == [] {
    } else if s[0] == '<' && '>' in s[1..] {
      StripTagsLeavesNoTag(s[IndexOf(s[1..], '>') + 2..]);
    } else {
      StripTagsLeavesNoTag(s[1..]);
      StripTagsChars(s[1..]);
      var r := StripTags(s);
      assert r == [s[0]] + StripTags(s[1..]);
      assert r[1..] == StripTags(s[1..]);
    }
  }

  lemma {:induction false} NoOpenerNoTag(s: string)
    requires '<' !in s
    ensures !HasTag(s)
    decreases |s|
  {
    if s != [] {
      NoOpenerNoTag(s[1..]);
    }
  }

  // ---------------------------------------------------------------
  // Step 2: code fences.

  function FirstOccurrence(s: string, p: string): (r: nat)
    requires Contains(s, p)
    ensures r + |p| <= |s| && s[r..r + |p|] == p
    decreases |s|
  {
    if StartsWith(s, p) then 0 else 1 + FirstOccurrence(s[1..], p)
  }

  /** `re.sub(r'```[\s\S]*?```', '', s)`: each fence with a later closing
      fence is removed together with the shortest text up to that closer. */
  function StripFencedBlocks(s: string): (r: string)
    decreases |s|
  {
    if s == [] then []
    else if StartsWith(s, Fence) && Contains(s[3..], Fence) then
      StripFencedBlocks(s[3 + FirstOccurrence(s[3..], Fence) + 3..])
    else [s[0]] + StripFencedBlocks(s[1..])
  }

  /** `re.sub(r'```', '', s)`: the leftover fences, scanned left to right. */
  function RemoveFences(s: string): (r: string)
    decreases |s|
  {
    if s == [] then []
    else if StartsWith(s, Fence) then RemoveFences(s[3..])
    else [s[0]] + RemoveFences(s[1..])
  }

  lemma RemoveFencesKeepsHead(t: string)
    requires t != [] && t[0] != '`'
    ensures RemoveFences(t) != [] && RemoveFences(t)[0] == t[0]
  {
    assert !StartsWith(t, Fence);
  }

  /** After the fence step no "```" is left, although removing a fence
      could in principle bring backticks together. */
  lemma {:induction false} RemoveFencesLeavesNoFence(s: string)
    ensures !Contains(RemoveFences(s), Fence)
    decreases |s|
  {
    if s == [] {
    } else if StartsWith(s, Fence) {
      RemoveFencesLeavesNoFence(s[3..]);
    } else {
      var t := s[1..];
      var rest := RemoveFences(t);
      var r := RemoveFences(s);
      RemoveFencesLeavesNoFence(t);
      assert r == [s[0]] + rest;
      assert r[1..] == rest;
      if s[0] == '`' && |t| >= 2 {
        if t[0] != '`' {
          RemoveFencesKeepsHead(t);
        } else {
          assert t[1] != '`';
          assert !StartsWith(t, Fence);
          assert rest == [t[0]] + RemoveFences(t[1..]);
          RemoveFencesKeepsHead(t[1..]);
          assert rest[1] == t[1];
        }
        assert !StartsWith(r, Fence);
      } else if s[0] == '`' {
        assert |t| < 2;
        assert |t| == 0 || (|t| == 1 && !StartsWith(t, Fence) && rest == [t[0]] + RemoveFences([]));
        assert |rest| < 2;
      }
    }
  }

  lemma {:induction false} NoTagInSuffix(s: string, k: nat)
    requires k <= |s| && !HasTag(s)
    ensures !HasTag(s[k..])
    decreases k
  {
    if k > 0 {
      assert s[1..][k - 1..] == s[k..];
      NoTagInSuffix(s[1..], k - 1);
    }
  }

  lemma {:induction false} FencedBlocksKeepNoTag(s: string)
    requires !HasTag(s)
    ensures !HasTag(StripFencedBlocks(s)) && (forall c :: c in StripFencedBlocks(s) ==> c in s)
    decreases |s|
  {
    if s == [] {
    } else if StartsWith(s, Fence) && Contains(s[3..], Fence) {
      var k := 3 + FirstOccurrence(s[3..], Fence) + 3;
      NoTagInSuffix(s, k);
      FencedBlocksKeepNoTag(s[k..]);
      assert forall c :: c in s[k..] ==> c in s;
    } else {
      FencedBlocksKeepNoTag(s[1..]);
      var r := StripFencedBlocks(s);
      assert r[1..] == StripFencedBlocks(s[1..]);
      assert forall c :: c in s[1..] ==> c in s;
    }
  }

  lemma {:induction false} RemoveFencesKeepsNoTag(s: string)
    requires !HasTag(s)
    ensures !HasTag(RemoveFences(s)) && (forall c :: c in RemoveFences(s) ==> c in s)
    decreases |s|
  {
    if s == [] {
    } else if StartsWith(s, Fence) {
      NoTagInSuffix(s, 3);
      RemoveFencesKeepsNoTag(s[3..]);
      assert forall c :: c in s[3..] ==> c in s;
    } else {
      RemoveFencesKeepsNoTag(s[1..]);
      var r := RemoveFences(s);
      assert r[1..] == RemoveFences(s[1..]);
      assert forall c :: c in s[1..] ==> c in s;
    }
  }

  lemma {:induction false} NoBacktickNoFence(s: string)
    requires '`' !in s
    ensures !Contains(s, Fence)
    decreases |s|
  {
    if s != [] {
      assert |s| >= 3 ==> s[..3][0] == s[0];
      NoBacktickNoFence(s[1..]);
    }
  }

  // ---------------------------------------------------------------
  // Step 3: `[-=]{3,}`, runs of at least three '-' or '='.

  predicate IsSep(c: char) { c == '-' || c == '=' }

  /** Length of the run of separator characters `s` starts with. */
  function RunLength(s: string): (r: nat)
    ensures r <= |s|
    ensures forall i :: 0 <= i < r ==> IsSep(s[i])
    ensures r < |s| ==> !IsSep(s[r])
    decreases |s|
  {
    if s != [] && IsSep(s[0]) then 1 + RunLength(s[1..]) else 0
  }

  predicate HasSeparator(s: string)
    decreases |s|
  {
    s != [] && (RunLength(s) >= 3 || HasSeparator(s[1..]))
  }

  /** `re.sub(r'[-=]{3,}', '', s)`: a run of three or more separator
      characters is removed whole (the quantifier is greedy). */
  function StripSeparators(s: string): (r: string)
    ensures |r| <= |s|
    decreases |s|
  {
    if s == [] then []
    else if RunLength(s) >= 3 then StripSeparators(s[RunLength(s)..])
    else [s[0]] + StripSeparators(s[1..])
  }

  lemma {:induction false} NoDashNoSeparator(s: string)
    requires '-' !in s && '=' !in s
    ensures !HasSeparator(s)
    decreases |s|
  {
    if s != [] {
      NoDashNoSeparator(s[1..]);
    }
  }

  // ---------------------------------------------------------------
  // Step 4 and the final `' '.join(s.split())`.

  /** `s[:n]` for a non-negative n. */
  function Truncate(s: string, n: nat): (r: string)
    ensures |r| <= n && |r| <= |s| && r == s[..|r|]
    ensures |s| <= n ==> r == s
  {
    if |s| > n then s[..n] else s
  }

  /** The longest whitespace-free prefix of `s`. */
  function Word(s: string): (w: string)
    ensures |w| <= |s| && w == s[..|w|] && HasNoWs(w)
    ensures |w| < |s| ==> IsWs(s[|w|])
    decreases |s|
  {
    if s == [] || IsWs(s[0]) then [] else [s[0]] + Word(s[1..])
  }

  /** `str.split()` with no separator: the maximal whitespace-free pieces. */
  function Split(s: string): (ws: seq<string>)
    decreases |s|
  {
    if s == [] then []
    else if IsWs(s[0]) then Split(s[1..])
    else
      var w := Word(s);
      [w] + Split(s[|w|..])
  }

  /** `' '.join(ws)`. */
  function Join(ws: seq<string>): string {
    if ws == [] then []
    else if |ws| == 1 then ws[0]
    else ws[0] + " " + Join(ws[1..])
  }

  function Collapse(s: string): string {
    Join(Split(s))
  }

  /** Text with no leading or trailing whitespace, where the only
      whitespace is single spaces between other characters. */
  predicate Normalized(t: string) {
    forall i :: 0 <= i < |t| && IsWs(t[i]) ==>
      t[i] == ' ' && 0 < i < |t| - 1 && !IsWs(t[i + 1]) && !IsWs(t[i - 1])
  }

  lemma {:induction false} SplitWords(s: string)
    ensures forall i :: 0 <= i < |Split(s)| ==> Split(s)[i] != [] && HasNoWs(Split(s)[i])
    decreases |s|
  {
    if s == [] {
    } else if IsWs(s[0]) {
      SplitWords(s[1..]);
    } else {
      SplitWords(s[|Word(s)|..]);
    }
  }

  lemma {:induction false} CollapseShortens(s: string)
    ensures |Collapse(s)| <= |s|
    decreases |s|
  {
    if s == [] {
    } else if IsWs(s[0]) {
      CollapseShortens(s[1..]);
    } else {
      var w := Word(s);
      var rest := s[|w|..];
      if Split(rest) == [] {
        assert Split(s) == [w];
      } else {
        assert rest != [] && IsWs(rest[0]);
        assert Split(rest) == Split(rest[1..]);
        CollapseShortens(rest[1..]);
        assert Split(s) == [w] + Split(rest);
        assert Join(Split(s)) == w + " " + Join(Split(rest));
      }
    }
  }

  lemma {:induction false} JoinNormalized(ws: seq<string>)
    requires forall i :: 0 <= i < |ws| ==> ws[i] != [] && HasNoWs(ws[i])
    ensures Normalized(Join(ws))
    ensures ws != [] ==> Join(ws) != [] && !IsWs(Join(ws)[0]) && !IsWs(Join(ws)[|Join(ws)| - 1])
    decreases |ws|
  {
    if |ws| > 1 {
      JoinNormalized(ws[1..]);
      var w := ws[0];
      var j := Join(ws[1..]);
      var t := Join(ws);
      assert t == w + " " + j;
      assert forall k :: 0 <= k < |w| ==> t[k] == w[k];
      forall i | 0 <= i < |t| && IsWs(t[i])
        ensures t[i] == ' ' && 0 < i < |t| - 1 && !IsWs(t[i + 1]) && !IsWs(t[i - 1])
      {
        if i == |w| {
          assert t[i + 1] == j[0];
          assert t[i - 1] == w[|w| - 1];
        } else {
          assert t[i] == j[i - |w| - 1];
          assert i - |w| - 1 > 0;
          assert t[i - 1] == j[i - |w| - 2];
          assert t[i + 1] == j[i - |w|];
        }
      }
      assert t[|t| - 1] == j[|j| - 1];
    }
  }

  /** The final whitespace pass leaves normalized text. */
  lemma CollapseNormalized(s: string)
    ensures Normalized(Collapse(s))
  {
    SplitWords(s);
    JoinNormalized(Split(s));
  }

  lemma {:induction false} SplitNonEmpty(s: string)
    requires exists i :: 0 <= i < |s| && !IsWs(s[i])
    ensures Split(s) != []
    decreases |s|
  {
    if IsWs(s[0]) {
      var i :| 0 <= i < |s| && !IsWs(s[i]);
      assert s[1..][i - 1] == s[i];
      SplitNonEmpty(s[1..]);
    }
  }

  /** Normalized text comes through the whitespace pass unchanged. */
  lemma {:induction false} CollapseFixesNormalized(t: string)
    requires Normalized(t)
    ensures Collapse(t) == t
    decreases |t|
  {
    if t != [] {
      assert !IsWs(t[0]);
      var w := Word(t);
      var rest := t[|w|..];
      if rest == [] {
        assert w == t;
        assert Split(t) == [w];
      } else {
        assert IsWs(t[|w|]);
        var u := rest[1..];
        assert u == t[|w| + 1..];
        assert !IsWs(t[|w| + 1]);
        assert Normalized(u) by {
          forall i | 0 <= i < |u| && IsWs(u[i])
            ensures u[i] == ' ' && 0 < i < |u| - 1 && !IsWs(u[i + 1]) && !IsWs(u[i - 1])
          {
            assert u[i] == t[i + |w| + 1];
            assert i != 0;
          }
        }
        CollapseFixesNormalized(u);
        SplitNonEmpty(u);
        assert Split(rest) == Split(u);
        assert Split(t) == [w] + Split(u);
        assert Join(Split(t)) == w + " " + u;
        assert t == w + [t[|w|]] + u;
      }
    }
  }

  /** The whitespace pass is idempotent. */
  lemma CollapseIdempotent(s: string)
    ensures Collapse(Collapse(s)) == Collapse(s)
  {
    CollapseNormalized(s);
    CollapseFixesNormalized(Collapse(s));
  }

  // ---------------------------------------------------------------
  // The whole filter.

  /** Working text after the tag step. */
  function AfterTags(text: string): string {
    if HasTag(text) then StripTags(text) else text
  }

  /** Working text after the code-block step. */
  function AfterFences(s: string): string {
    if Contains(s, Fence) then RemoveFences(StripFencedBlocks(s)) else s
  }

  /** Working text after the separator step. */
  function AfterSeparators(s: string): string {
    if HasSeparator(s) then StripSeparators(s) else s
  }

  function SanitizeInput(text: string, maxLength: nat): Sanitized {
    var s1 := AfterTags(text);
    var s2 := AfterFences(s1);
    var s3 := AfterSeparators(s2);
    var s4 := Truncate(s3, maxLength);
    var reasons := ReasonList(HasTag(text), Contains(s1, Fence), HasSeparator(s2), |text| > maxLength);
    Sanitized(Collapse(s4), reasons)
  }

  /** The reasons appended by the four checks, in the order they run. */
  function ReasonList(tags: bool, fences: bool, separators: bool, tooLong: bool): seq<Reason> {
    (if tags then [XmlTags] else [])
    + (if fences then [CodeBlocks] else [])
    + (if separators then [SeparatorLines] else [])
    + (if tooLong then [LengthExceeded] else [])
  }

  function Rank(r: Reason): nat {
    match r
    case XmlTags => 0
    case CodeBlocks => 1
    case SeparatorLines => 2
    case LengthExceeded => 3
  }

  /** The returned text never exceeds the limit: truncation comes first
      and the whitespace pass can only shorten. */
  lemma SanitizeBounded(text: string, maxLength: nat)
    ensures |SanitizeInput(text, maxLength).text| <= maxLength
  {
    var s3 := AfterSeparators(AfterFences(AfterTags(text)));
    CollapseShortens(Truncate(s3, maxLength));
  }

  /** The returned text is whitespace-normalized. */
  lemma SanitizeNormalized(text: string, maxLength: nat)
    ensures Normalized(SanitizeInput(text, maxLength).text)
  {
    var s3 := AfterSeparators(AfterFences(AfterTags(text)));
    CollapseNormalized(Truncate(s3, maxLength));
  }

  /** Each reason is reported at most once and in the fixed order
      xml_tags, code_blocks, separator_lines, length_exceeded; a tag and an
      over-long original are reported exactly when present. */
  lemma SanitizeReasons(text: string, maxLength: nat)
    ensures var rs := SanitizeInput(text, maxLength).reasons;
      (forall i, j :: 0 <= i < j < |rs| ==> Rank(rs[i]) < Rank(rs[j]))
      && (XmlTags in rs <==> HasTag(text))
      && (CodeBlocks in rs <==> Contains(AfterTags(text), Fence))
      && (SeparatorLines in rs <==> HasSeparator(AfterFences(AfterTags(text))))
      && (LengthExceeded in rs <==> |text| > maxLength)
  {
    var s1 := AfterTags(text);
    var s2 := AfterFences(s1);
    ReasonListFacts(HasTag(text), Contains(s1, Fence), HasSeparator(s2), |text| > maxLength);
  }

  lemma ReasonListFacts(tags: bool, fences: bool, separators: bool, tooLong: bool)
    ensures var rs := ReasonList(tags, fences, separators, tooLong);
      (forall i, j :: 0 <= i < j < |rs| ==> Rank(rs[i]) < Rank(rs[j]))
      && (XmlTags in rs <==> tags) && (CodeBlocks in rs <==> fences)
      && (SeparatorLines in rs <==> separators) && (LengthExceeded in rs <==> tooLong)
  {
    ReasonListOrdered(tags, fences, separators, tooLong);
    var rs := ReasonList(tags, fences, separators, tooLong);
    assert XmlTags in rs <==> tags;
    assert CodeBlocks in rs <==> fences;
    assert SeparatorLines in rs <==> separators;
    assert LengthExceeded in rs <==> tooLong;
  }

  lemma ReasonListOrdered(tags: bool, fences: bool, separators: bool, tooLong: bool)
    ensures var rs := ReasonList(tags, fences, separators, tooLong);
      forall i, j :: 0 <= i < j < |rs| ==> Rank(rs[i]) < Rank(rs[j])
  {
    var rs := ReasonList(tags, fences, separators, tooLong);
    forall i, j | 0 <= i < j < |rs| ensures Rank(rs[i]) < Rank(rs[j]) {
      RankedPair(tags, fences, separators, tooLong, i, j);
    }
  }

  /** The `i`-th reason is the `i`-th raised flag, so ranks increase. */
  lemma RankedPair(tags: bool, fences: bool, separators: bool, tooLong: bool, i: int, j: int)
    requires 0 <= i < j < |ReasonList(tags, fences, separators, tooLong)|
    ensures var rs := ReasonList(tags, fences, separators, tooLong); Rank(rs[i]) < Rank(rs[j])
  {
    var t := if tags then 1 else 0;
    var f := if fences then 1 else 0;
    var sp := if separators then 1 else 0;
    var rs := ReasonList(tags, fences, separators, tooLong);
    assert forall k :: 0 <= k < |rs| ==>
      rs[k] == (if k < t then XmlTags else if k < t + f then CodeBlocks
                else if k < t + f + sp then SeparatorLines else LengthExceeded);
  }

  /** "length_exceeded" depends only on the original length, even when
      the cleaning steps alone bring the text under the limit. */
  lemma LengthReasonIgnoresCleaning(text: string, maxLength: nat)
    requires |text| > maxLength
    requires |AfterSeparators(AfterFences(AfterTags(text)))| <= maxLength
    ensures LengthExceeded in SanitizeInput(text, maxLength).reasons
  {
  }

  /** After the tag and code-block steps the working text holds no tag
      and no fence. */
  lemma {:induction false} CleanedOfTagsAndFences(text: string)
    ensures !HasTag(AfterFences(AfterTags(text)))
    ensures !Contains(AfterFences(AfterTags(text)), Fence)
  {
    var s1 := AfterTags(text);
    if HasTag(text) {
      StripTagsLeavesNoTag(text);
    }
    if Contains(s1, Fence) {
      FencedBlocksKeepNoTag(s1);
      RemoveFencesKeepsNoTag(StripFencedBlocks(s1));
      RemoveFencesLeavesNoFence(StripFencedBlocks(s1));
    }
  }

  /** Clean input of acceptable length gets no reasons and only has its
      whitespace collapsed. */
  lemma CleanInputOnlyCollapsed(text: string, maxLength: nat)
    requires !HasTag(text) && !Contains(text, Fence) && !HasSeparator(text)
    requires |text| <= maxLength
    ensures SanitizeInput(text, maxLength) == Sanitized(Collapse(text), [])
  {
  }

  lemma HelloWorld()
    ensures SanitizeInput("hello world", DefaultMaxLength) == Sanitized("hello world", [])
  {
    var t := "hello world";
    assert t[5] == ' ';
    assert forall i :: 0 <= i < |t| && i != 5 ==> !IsWs(t[i]);
    assert '<' !in t && '`' !in t && '-' !in t && '=' !in t;
    NoOpenerNoTag(t);
    NoBacktickNoFence(t);
    NoDashNoSeparator(t);
    CollapseFixesNormalized(t);
    CleanInputOnlyCollapsed(t, DefaultMaxLength);
  }
}
