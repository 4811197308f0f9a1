/**
 * Detection of "assign me"-style comments: a fixed list of phrase patterns,
 * each of the regular-expression shape `\b w1 \s+ w2 ... \s+ wn \b`,
 * searched for anywhere in the lowercased comment text.
 */
module Phrases {
  import opened Wrappers
  import opened Text

  /** A phrase pattern, given by its literal tokens. */
  type Pattern = seq<string>

  /** The eight request phrasings, in the order they are tried. */
  const AssignmentKeywords: seq<Pattern> := [
    ["assign", "me"],
    ["i", "want", "to", "work", "on", "this"],
    ["can", "i", "work", "on", "this"],
    ["i", "would", "like", "to", "work", "on", "this"],
    ["i'd", "like", "to", "take", "this"],
    ["please", "assign", "me"],
    ["i", "can", "work", "on", "this"],
    ["let", "me", "work", "on", "this"]
  ]

  /** A pattern has at least one token, and no token is empty or holds whitespace. */
  predicate WellFormed(p: Pattern) {
    && |p| >= 1
    && forall k :: 0 <= k < |p| ==> p[k] != "" && !HasSpace(p[k])
  }

  predicate HasSpace(t: string) {
    exists c :: 0 <= c < |t| && IsSpace(t[c])
  }

  predicate AllSpace(s: string, from: nat, to: nat)
    requires from <= to <= |s|
  {
    forall x :: from <= x < to ==> IsSpace(s[x])
  }

  /** Regex `\b` at position `i`: exactly one of the neighbouring characters is a word character. */
  predicate WordBoundary(s: string, i: nat)
    requires i <= |s|
  {
    (i > 0 && IsWordChar(s[i - 1])) != (i < |s| && IsWordChar(s[i]))
  }

  /**
   * Reference meaning of the pattern body: `s[i..j]` is the tokens of `p`
   * in order, consecutive tokens separated by one or more whitespace characters.
   */
  ghost predicate Spans(s: string, i: nat, j: nat, p: Pattern)
    requires i <= j <= |s|
    decreases |p|
  {
    if |p| == 0 then false
    else
      var k := i + |p[0]|;
      && k <= j
      && s[i..k] == p[0]
      && if |p| == 1 then k == j
         else exists m :: k < m <= j && AllSpace(s, k, m) && Spans(s, m, j, p[1..])
  }

  /** The whole pattern, boundaries included, matches `s[i..j]`. */
  ghost predicate MatchesAt(s: string, i: nat, j: nat, p: Pattern) {
    i <= j <= |s| && WordBoundary(s, i) && Spans(s, i, j, p) && WordBoundary(s, j)
  }

  /** Reference meaning of `re.search(pattern, s)` succeeding. */
  ghost predicate Occurs(s: string, p: Pattern) {
    exists i, j :: MatchesAt(s, i, j, p)
  }

  /** The executable matcher: where the pattern body, anchored at `i`, ends. */
  function MatchFrom(s: string, i: nat, p: Pattern): (r: Option<nat>)
    requires i <= |s|
    ensures r.Some? ==> i <= r.value <= |s|
    decreases |p|
  {
    if |p| == 0 || !(i + |p[0]| <= |s| && s[i..i + |p[0]|] == p[0]) then None
    else
      var k := i + |p[0]|;
      if |p| == 1 then Some(k)
      else
        var m := SkipSpace(s, k);
        if m == k then None else MatchFrom(s, m, p[1..])
  }

  /** The pattern matches with its boundaries starting at `i`. */
  predicate HitAt(s: string, p: Pattern, i: nat)
    requires i <= |s|
  {
    WordBoundary(s, i) && MatchFrom(s, i, p).Some? && WordBoundary(s, MatchFrom(s, i, p).value)
  }

  /** Tries every start position from `i` on, left to right, as `re.search` does. */
  function SearchFrom(s: string, p: Pattern, i: nat): (r: bool)
    requires i <= |s|
    ensures r <==> exists x :: i <= x <= |s| && HitAt(s, p, x)
    decreases |s| - i
  {
    if HitAt(s, p, i) then true
    else if i == |s| then false
    else SearchFrom(s, p, i + 1)
  }

  function Search(s: string, p: Pattern): bool {
    SearchFrom(s, p, 0)
  }

  /** Every match the executable matcher reports is a match in the reference sense. */
  lemma {:induction false} MatchFromSound(s: string, i: nat, p: Pattern)
    requires i <= |s|
    requires MatchFrom(s, i, p).Some?
    ensures Spans(s, i, MatchFrom(s, i, p).value, p)
    decreases |p|
  {
    var k := i + |p[0]|;
    if |p| > 1 {
      var m := SkipSpace(s, k);
      MatchFromSound(s, m, p[1..]);
      assert AllSpace(s, k, m);
    }
  }

  /**
   * Conversely, a reference match of a well-formed pattern is the one the matcher
   * finds: the whitespace run between two tokens must be maximal, because the
   * next token starts with a non-space character.
   */
  lemma {:induction false} MatchFromComplete(s: string, i: nat, j: nat, p: Pattern)
    requires i <= j <= |s|
    requires WellFormed(p)
    requires Spans(s, i, j, p)
    ensures MatchFrom(s, i, p) == Some(j)
    decreases |p|
  {
    var k := i + |p[0]|;
    if |p| > 1 {
      var m :| k < m <= j && AllSpace(s, k, m) && Spans(s, m, j, p[1..]);
      var rest := p[1..];
      assert WellFormed(rest) by {
        assert forall x :: 0 <= x < |rest| ==> rest[x] == p[x + 1];
      }
      assert s[m..m + |rest[0]|] == rest[0];
      assert s[m] == rest[0][0];
      assert !IsSpace(s[m]) by {
        assert !HasSpace(rest[0]);
      }
      assert SkipSpace(s, k) == m by {
        SkipSpaceOverRun(s, k, m);
      }
      MatchFromComplete(s, m, j, rest);
    }
  }

  lemma {:induction false} SkipSpaceOverRun(s: string, k: nat, m: nat)
    requires k <= m < |s|
    requires AllSpace(s, k, m) && !IsSpace(s[m])
    ensures SkipSpace(s, k) == m
    decreases m - k
  {
    if k < m {
      SkipSpaceOverRun(s, k + 1, m);
    }
  }

  /** The executable search agrees with the reference meaning of `re.search`. */
  lemma SearchIsOccurs(s: string, p: Pattern)
    requires WellFormed(p)
    ensures Search(s, p) <==> Occurs(s, p)
  {
    if Search(s, p) {
      var x :| 0 <= x <= |s| && HitAt(s, p, x);
      MatchFromSound(s, x, p);
      assert MatchesAt(s, x, MatchFrom(s, x, p).value, p);
    }
    if Occurs(s, p) {
      var i, j :| MatchesAt(s, i, j, p);
      MatchFromComplete(s, i, j, p);
      assert HitAt(s, p, i);
    }
  }

  lemma KeywordsWellFormed()
    ensures forall k :: 0 <= k < |AssignmentKeywords| ==> WellFormed(AssignmentKeywords[k])
  {
  }

  /** Tries the patterns from index `k` on. */
  function AnyKeywordFrom(s: string, k: nat): (r: bool)
    requires k <= |AssignmentKeywords|
    ensures r <==> exists x :: k <= x < |AssignmentKeywords| && Occurs(s, AssignmentKeywords[x])
    decreases |AssignmentKeywords| - k
  {
    if k == |AssignmentKeywords| then false
    else
      KeywordsWellFormed();
      SearchIsOccurs(s, AssignmentKeywords[k]);
      Search(s, AssignmentKeywords[k]) || AnyKeywordFrom(s, k + 1)
  }

  /**
   * `is_assignment_request`: some request phrasing occurs in the lowercased
   * comment text.
   */
  function IsAssignmentRequest(text: string): (r: bool)
    ensures r <==> exists x :: 0 <= x < |AssignmentKeywords| && Occurs(Lower(text), AssignmentKeywords[x])
  {
    AnyKeywordFrom(Lower(text), 0)
  }

  /** Every token of a matching pattern occurs in the text. */
  lemma {:induction false} SpansContainTokens(s: string, i: nat, j: nat, p: Pattern)
    requires i <= j <= |s|
    requires Spans(s, i, j, p)
    ensures forall k :: 0 <= k < |p| ==> Contains(s, p[k])
    decreases |p|
  {
    assert OccursAt(s, p[0], i);
    if |p| > 1 {
      var m :| i + |p[0]| < m <= j && AllSpace(s, i + |p[0]|, m) && Spans(s, m, j, p[1..]);
      SpansContainTokens(s, m, j, p[1..]);
      assert forall k :: 1 <= k < |p| ==> p[k] == p[1..][k - 1];
    }
  }

  lemma ContainsChars(s: string, t: string, c: char)
    requires Contains(s, t) && ContainsChar(t, c)
    ensures ContainsChar(s, c)
  {
    var i :| 0 <= i <= |s| && OccursAt(s, t, i);
    var x :| 0 <= x < |t| && t[x] == c;
    assert s[i + x] == s[i..i + |t|][x];
  }

  /** A pattern one of whose tokens holds a letter the text lacks cannot occur in it. */
  lemma AbsentLetter(s: string, p: Pattern, k: nat, c: char)
    requires k < |p| && ContainsChar(p[k], c) && !ContainsChar(s, c)
    ensures !Occurs(s, p)
  {
    if Occurs(s, p) {
      var i, j :| MatchesAt(s, i, j, p);
      SpansContainTokens(s, i, j, p);
      ContainsChars(s, p[k], c);
    }
  }

  /** Every phrasing holds an `m`, a `w` or a `k`, so text with none of them is no request. */
  lemma NoKeywordWithoutMWK(s: string)
    requires !ContainsChar(s, 'm') && !ContainsChar(s, 'w') && !ContainsChar(s, 'k')
    ensures forall x :: 0 <= x < |AssignmentKeywords| ==> !Occurs(s, AssignmentKeywords[x])
  {
    var K := AssignmentKeywords;
    assert K[0][1][0] == 'm';
    assert ContainsChar(K[0][1], 'm');
    AbsentLetter(s, K[0], 1, 'm');
    assert K[1][3][0] == 'w';
    assert ContainsChar(K[1][3], 'w');
    AbsentLetter(s, K[1], 3, 'w');
    assert K[2][2][0] == 'w';
    assert ContainsChar(K[2][2], 'w');
    AbsentLetter(s, K[2], 2, 'w');
    assert K[3][4][0] == 'w';
    assert ContainsChar(K[3][4], 'w');
    AbsentLetter(s, K[3], 4, 'w');
    assert K[4][1][2] == 'k';
    assert ContainsChar(K[4][1], 'k');
    AbsentLetter(s, K[4], 1, 'k');
    assert K[5][2][0] == 'm';
    assert ContainsChar(K[5][2], 'm');
    AbsentLetter(s, K[5], 2, 'm');
    assert K[6][2][0] == 'w';
    assert ContainsChar(K[6][2], 'w');
    AbsentLetter(s, K[6], 2, 'w');
    assert K[7][1][0] == 'm';
    assert ContainsChar(K[7][1], 'm');
    AbsentLetter(s, K[7], 1, 'm');
  }

  /** Every phrasing holds an `i`, so text without one is no request. */
  lemma NoKeywordWithoutI(s: string)
    requires !ContainsChar(s, 'i')
    ensures forall x :: 0 <= x < |AssignmentKeywords| ==> !Occurs(s, AssignmentKeywords[x])
  {
    var K := AssignmentKeywords;
    assert K[0][0][3] == 'i';
    AbsentLetter(s, K[0], 0, 'i');
    assert K[1][0][0] == 'i';
    AbsentLetter(s, K[1], 0, 'i');
    assert K[2][1][0] == 'i';
    AbsentLetter(s, K[2], 1, 'i');
    assert K[3][0][0] == 'i';
    AbsentLetter(s, K[3], 0, 'i');
    assert K[4][0][0] == 'i';
    AbsentLetter(s, K[4], 0, 'i');
    assert K[5][1][3] == 'i';
    AbsentLetter(s, K[5], 1, 'i');
    assert K[6][0][0] == 'i';
    AbsentLetter(s, K[6], 0, 'i');
    assert K[7][4][2] == 'i';
    AbsentLetter(s, K[7], 4, 'i');
  }

  lemma HitIsRequest(text: string, x: nat, i: nat)
    requires x < |AssignmentKeywords| && i <= |text|
    requires HitAt(Lower(text), AssignmentKeywords[x], i)
    ensures IsAssignmentRequest(text)
  {
    KeywordsWellFormed();
    SearchIsOccurs(Lower(text), AssignmentKeywords[x]);
  }

  /**
   * The detection cases the repository's local test script checks: matching
   * ignores case, accepts punctuation after the phrase, and needs a whole phrase.
   */
  lemma DetectionExamples()
    ensures IsAssignmentRequest("assign me")
    ensures IsAssignmentRequest("I want to work on this")
    ensures IsAssignmentRequest("Can I work on this?")
    ensures !IsAssignmentRequest("This is a great issue")
    ensures IsAssignmentRequest("Please assign me")
    ensures !IsAssignmentRequest("Just a regular comment")
  {
    AssignMe();
    WantToWork();
    CanIWork();
    PleaseAssignMe();
    GreatIssue();
    RegularComment();
  }

  lemma GreatIssue()
    ensures !IsAssignmentRequest("This is a great issue")
  {
    var s := "this is a great issue";
    assert Lower("This is a great issue") == s;
    assert !ContainsChar(s, 'm') && !ContainsChar(s, 'w') && !ContainsChar(s, 'k');
    NoKeywordWithoutMWK(s);
  }

  lemma RegularComment()
    ensures !IsAssignmentRequest("Just a regular comment")
  {
    var t := "just a regular comment";
    assert Lower("Just a regular comment") == t;
    assert !ContainsChar(t, 'i');
    NoKeywordWithoutI(t);
  }

  /**
   * A phrase written out with single spaces between its tokens is matched by
   * its pattern, wherever it appears.
   */
  lemma {:induction false} SpacedPhraseMatches(x: string, i: nat, p: Pattern)
    requires WellFormed(p)
    requires i + |Join(p, " ")| <= |x| && x[i..i + |Join(p, " ")|] == Join(p, " ")
    ensures MatchFrom(x, i, p) == Some(i + |Join(p, " ")|)
    decreases |p|
  {
    if |p| == 1 {
      assert Join(p, " ") == p[0];
    } else {
      var m := SpacedStep(x, i, p);
      SpacedPhraseMatches(x, m, p[1..]);
    }
  }

  /**
   * One step of `SpacedPhraseMatches`: the first token and its single space
   * are consumed, and the rest of the phrase follows at the returned position.
   */
  lemma SpacedStep(x: string, i: nat, p: Pattern) returns (m: nat)
    requires WellFormed(p) && |p| > 1
    requires i + |Join(p, " ")| <= |x| && x[i..i + |Join(p, " ")|] == Join(p, " ")
    ensures WellFormed(p[1..])
    ensures m + |Join(p[1..], " ")| == i + |Join(p, " ")|
    ensures x[m..m + |Join(p[1..], " ")|] == Join(p[1..], " ")
    ensures MatchFrom(x, i, p) == MatchFrom(x, m, p[1..])
  {
    var k := i + |p[0]|;
    m := k + 1;
    var rest := p[1..];
    var jr := Join(rest, " ");
    assert Join(p, " ") == p[0] + " " + jr;
    assert x[i..k] == p[0] && x[k] == ' ' && x[k + 1..k + 1 + |jr|] == jr by {
      SpacedParts(x, i, p[0], jr);
    }
    assert WellFormed(rest) by {
      assert forall t :: 0 <= t < |rest| ==> rest[t] == p[t + 1];
    }
    assert SkipSpace(x, k) == k + 1 by {
      assert !IsSpace(x[k + 1]) by {
        JoinStartsWithFirst(rest);
        assert x[k + 1] == x[k + 1..k + 1 + |jr|][0] == jr[0] == rest[0][0];
        assert !HasSpace(rest[0]);
      }
      SkipSpaceOverRun(x, k, k + 1);
    }
    MatchFromStep(x, i, p, k + 1);
  }

  /** Where the two halves of `a + " " + b` sit when it occurs at `i`. */
  lemma SpacedParts(x: string, i: nat, a: string, b: string)
    requires i + |a + " " + b| <= |x| && x[i..i + |a + " " + b|] == a + " " + b
    ensures x[i..i + |a|] == a
    ensures x[i + |a|] == ' '
    ensures x[i + |a| + 1..i + |a| + 1 + |b|] == b
  {
    var j := a + " " + b;
    assert x[i..i + |a|] == j[..|a|];
    assert x[i + |a|] == x[i..i + |j|][|a|];
    assert x[i + |a| + 1..i + |a| + 1 + |b|] == j[|a| + 1..];
  }

  /** After the first token and a run of whitespace, matching continues with the remaining tokens. */
  lemma MatchFromStep(x: string, i: nat, p: Pattern, m: nat)
    requires |p| > 1 && i + |p[0]| <= |x| && x[i..i + |p[0]|] == p[0]
    requires m == SkipSpace(x, i + |p[0]|) > i + |p[0]|
    ensures MatchFrom(x, i, p) == MatchFrom(x, m, p[1..])
  {
  }

  lemma JoinStartsWithFirst(p: seq<string>)
    requires |p| >= 1
    ensures StartsWith(Join(p, " "), p[0])
  {
    if |p| > 1 {
      assert Join(p, " ") == p[0] + " " + Join(p[1..], " ");
    }
  }

  lemma AssignMe()
    ensures IsAssignmentRequest("assign me")
  {
    var s := "assign me";
    assert Lower(s) == s;
    assert Join(AssignmentKeywords[0], " ") == s;
    KeywordsWellFormed();
    SpacedPhraseMatches(s, 0, AssignmentKeywords[0]);
    assert HitAt(s, AssignmentKeywords[0], 0);
    HitIsRequest(s, 0, 0);
  }

  lemma WantToWork()
    ensures IsAssignmentRequest("I want to work on this")
  {
    var s := "i want to work on this";
    assert Lower("I want to work on this") == s;
    JoinedWantToWork();
    KeywordsWellFormed();
    SpacedPhraseMatches(s, 0, AssignmentKeywords[1]);
    assert HitAt(s, AssignmentKeywords[1], 0);
    HitIsRequest("I want to work on this", 1, 0);
  }

  /** Joining a pattern of several tokens: the first token, a space, then the rest joined. */
  lemma JoinCons(p: Pattern, rest: string)
    requires |p| > 1 && Join(p[1..], " ") == rest
    ensures Join(p, " ") == p[0] + " " + rest
  {
  }

  lemma JoinedOnThis()
    ensures Join(["work", "on", "this"], " ") == "work on this"
  {
    assert Join(["on", "this"], " ") == "on this";
  }

  lemma JoinedToWork()
    ensures Join(["to", "work", "on", "this"], " ") == "to work on this"
  {
    JoinedOnThis();
    JoinCons(["to", "work", "on", "this"], "work on this");
  }

  lemma JoinedWantTo()
    ensures Join(["want", "to", "work", "on", "this"], " ") == "want to work on this"
  {
    JoinedToWork();
    JoinCons(["want", "to", "work", "on", "this"], "to work on this");
  }

  lemma JoinedWantToWork()
    ensures Join(AssignmentKeywords[1], " ") == "i want to work on this"
  {
    JoinedWantTo();
    JoinCons(AssignmentKeywords[1], "want to work on this");
  }

  lemma JoinedCanIWork()
    ensures Join(AssignmentKeywords[2], " ") == "can i work on this"
  {
    JoinedOnThis();
    assert Join(["i", "work", "on", "this"], " ") == "i work on this" by {
      JoinCons(["i", "work", "on", "this"], "work on this");
    }
    JoinCons(AssignmentKeywords[2], "i work on this");
  }

  lemma LowerCanIWork()
    ensures Lower("Can I work on this?") == "can i work on this?"
  {
  }

  lemma CanIWork()
    ensures IsAssignmentRequest("Can I work on this?")
  {
    var s := "can i work on this?";
    LowerCanIWork();
    assert s[..18] == "can i work on this";
    JoinedCanIWork();
    KeywordsWellFormed();
    SpacedPhraseMatches(s, 0, AssignmentKeywords[2]);
    assert WordBoundary(s, 18);
    assert HitAt(s, AssignmentKeywords[2], 0);
    HitIsRequest("Can I work on this?", 2, 0);
  }

  lemma PleaseAssignMe()
    ensures IsAssignmentRequest("Please assign me")
  {
    var s := "please assign me";
    assert Lower("Please assign me") == s;
    assert Join(AssignmentKeywords[0], " ") == s[7..];
    KeywordsWellFormed();
    SpacedPhraseMatches(s, 7, AssignmentKeywords[0]);
    assert HitAt(s, AssignmentKeywords[0], 7);
    HitIsRequest("Please assign me", 0, 7);
  }
}
