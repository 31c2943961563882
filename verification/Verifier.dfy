/** The default citation rubric: a scan for bracketed identifiers and the
    comparison with the cluster's members
    (crates/episcience-core/src/synthesis/verifier.rs). */
module Verifier {
  import opened Base
  import opened UuidText

  datatype Reason = UncitedMember(claim: Uuid) | HallucinatedCitation(claim: Uuid)

  /** The evidence is what was cited, or for a foreign citation the members. */
  datatype Outcome = Accept(citedCount: nat) | Reject(reason: Reason, evidence: set<Uuid>)

  predicate IsCitationChar(c: char) {
    IsLowerHex(c) || c == '-'
  }

  /** A match of the citation pattern: a bracket, thirty-six digits or
      hyphens, a bracket. */
  predicate MatchAt(text: string, i: nat) {
    && i + 38 <= |text|
    && text[i] == '[' && text[i + 37] == ']'
    && forall k :: i < k < i + 37 ==> IsCitationChar(text[k])
  }

  predicate CapturedAt(text: string, i: nat, c: string) {
    MatchAt(text, i) && text[i + 1..i + 37] == c
  }

  /** What the matches capture, scanning from `i`: leftmost first, each search
      starting where the last match ended. */
  function Captures(text: string, i: nat): seq<string>
    requires i <= |text|
    decreases |text| - i
  {
    if i == |text| then []
    else if MatchAt(text, i) then [text[i + 1..i + 37]] + Captures(text, i + 38)
    else Captures(text, i + 1)
  }

  function Parsed(captures: seq<string>): set<Uuid> {
    set c | c in captures && ParseUuid(c).Some? :: ParseUuid(c).value
  }

  function Cited(narrative: string): set<Uuid> {
    Parsed(Captures(narrative, 0))
  }

  function FirstUncited(members: seq<Uuid>, cited: set<Uuid>): Option<Uuid> {
    if members == [] then None
    else if members[0] !in cited then Some(members[0])
    else FirstUncited(members[1..], cited)
  }

  function Members(members: seq<Uuid>): set<Uuid> {
    set m | m in members
  }

  /** `first` is the order in which the set of citations is walked. */
  function DefaultCitationRubric(narrative: string, members: seq<Uuid>, first: set<Uuid> -> Uuid): Outcome {
    var cited := Cited(narrative);
    match FirstUncited(members, cited)
    case Some(m) => Reject(UncitedMember(m), cited)
    case None =>
      var foreign := cited - Members(members);
      if foreign != {} then Reject(HallucinatedCitation(first(foreign)), Members(members)) else Accept(|cited|)
  }

  // ── The scan misses no citation ─────────────────────────────────────────

  predicate OccursAt(text: string, word: string, i: nat) {
    i + |word| <= |text| && text[i..i + |word|] == word
  }

  ghost predicate Occurs(text: string, word: string) {
    exists i :: OccursAt(text, word, i)
  }

  function Citation(u: Uuid): string {
    "[" + Hyphenated(u) + "]"
  }

  /** Matches never overlap: inside a match there is no bracket. */
  lemma MatchesAreApart(text: string, i: nat, j: nat)
    requires MatchAt(text, i) && MatchAt(text, j) && i < j
    ensures i + 38 <= j
  {
  }

  /** Leftmost and non-overlapping though it is, the scan captures every
      match. */
  lemma {:induction false} CapturesAreAllMatches(text: string, i: nat, c: string)
    requires i <= |text|
    ensures c in Captures(text, i) <==> exists j :: i <= j && CapturedAt(text, j, c)
    decreases |text| - i
  {
    hide MatchAt;
    if i < |text| {
      if MatchAt(text, i) {
        MatchFits(text, i);
        CapturesAreAllMatches(text, i + 38, c);
        forall j | i < j && MatchAt(text, j) ensures i + 38 <= j {
          MatchesAreApart(text, i, j);
        }
        assert CapturedAt(text, i, c) <==> text[i + 1..i + 37] == c;
      } else {
        CapturesAreAllMatches(text, i + 1, c);
      }
    } else {
      NoMatchAtEnd(text);
    }
  }

  lemma MatchFits(text: string, i: nat)
    requires MatchAt(text, i)
    ensures i + 38 <= |text|
  {
  }

  lemma NoMatchAtEnd(text: string)
    ensures forall j :: |text| <= j ==> !MatchAt(text, j)
  {
  }

  lemma MatchIsCitation(text: string, j: nat, u: Uuid)
    requires j + 38 <= |text|
    ensures MatchAt(text, j) && ParseUuid(text[j + 1..j + 37]) == Some(u) <==> OccursAt(text, Citation(u), j)
  {
    hide Hyphenated, ParseHyphenated;
    HyphenatedRoundTrip(u);
    var inner := text[j + 1..j + 37];
    if MatchAt(text, j) && ParseUuid(inner) == Some(u) {
      assert forall k :: 0 <= k < 36 ==> inner[k] == text[j + 1 + k] && IsCitationChar(text[j + 1 + k]);
      HyphenatedCanonical(inner);
      assert text[j..j + 38] == "[" + inner + "]";
    }
    if OccursAt(text, Citation(u), j) {
      var word := text[j..j + 38];
      assert word[1..37] == inner == Hyphenated(u);
      assert text[j] == word[0] && text[j + 37] == word[37];
      forall k | j < k < j + 37 ensures IsCitationChar(text[k]) {
        assert text[k] == word[k - j] == Hyphenated(u)[k - j - 1];
      }
    }
  }

  /** An identifier counts as cited exactly when its bracketed lower-case text
      occurs anywhere in the narrative. */
  lemma CitedIffOccurs(narrative: string, u: Uuid)
    ensures u in Cited(narrative) <==> Occurs(narrative, Citation(u))
  {
    hide MatchAt, OccursAt, ParseUuid, Hyphenated, Captures;
    if u in Cited(narrative) {
      var c :| c in Captures(narrative, 0) && ParseUuid(c) == Some(u);
      CapturesAreAllMatches(narrative, 0, c);
      var j: nat :| CapturedAt(narrative, j, c);
      MatchFits(narrative, j);
      MatchIsCitation(narrative, j, u);
    }
    if i :| OccursAt(narrative, Citation(u), i) {
      CitationFits(narrative, u, i);
      MatchIsCitation(narrative, i, u);
      CapturesAreAllMatches(narrative, 0, narrative[i + 1..i + 37]);
      assert CapturedAt(narrative, i, narrative[i + 1..i + 37]);
    }
  }

  lemma CitationFits(text: string, u: Uuid, i: nat)
    requires OccursAt(text, Citation(u), i)
    ensures i + 38 <= |text|
  {
  }

  // ── The verdict ─────────────────────────────────────────────────────────

  lemma {:induction false} FirstUncitedIs(members: seq<Uuid>, cited: set<Uuid>)
    ensures FirstUncited(members, cited).None? <==> Members(members) <= cited
    ensures FirstUncited(members, cited).Some? ==>
      exists i :: 0 <= i < |members| && members[i] == FirstUncited(members, cited).value && members[i] !in cited
        && forall k :: 0 <= k < i ==> members[k] in cited
  {
    if members != [] && members[0] in cited {
      FirstUncitedIs(members[1..], cited);
      assert Members(members) == {members[0]} + Members(members[1..]);
      if FirstUncited(members[1..], cited).Some? {
        var i :| 0 <= i < |members[1..]| && members[1..][i] == FirstUncited(members[1..], cited).value
          && members[1..][i] !in cited && forall k :: 0 <= k < i ==> members[1..][k] in cited;
        forall k | 0 <= k < i + 1 ensures members[k] in cited {
          assert k > 0 ==> members[k] == members[1..][k - 1];
        }
        assert members[i + 1] == members[1..][i];
      }
    } else if members != [] {
      assert members[0] in Members(members);
    }
  }

  /** The first of the members that does not occur. */
  ghost predicate IsFirstMissing(narrative: string, members: seq<Uuid>, m: Uuid) {
    exists i :: 0 <= i < |members| && members[i] == m && !Occurs(narrative, Citation(m))
      && forall k :: 0 <= k < i ==> Occurs(narrative, Citation(members[k]))
  }

  /** The rubric accepts exactly when the identifiers whose bracketed text
      occurs in the narrative are the cluster's members; otherwise it names
      the first member that does not occur, or, when all do, an identifier
      that occurs and is no member. */
  lemma RubricIsExact(narrative: string, members: seq<Uuid>, first: set<Uuid> -> Uuid)
    requires forall s: set<Uuid> :: s != {} ==> first(s) in s
    ensures var outcome := DefaultCitationRubric(narrative, members, first);
      && (outcome.Accept? <==> forall u :: u in members <==> Occurs(narrative, Citation(u)))
      && match outcome
         case Accept(n) => n == |Members(members)|
         case Reject(UncitedMember(m), evidence) =>
           (forall u :: u in evidence <==> Occurs(narrative, Citation(u))) && IsFirstMissing(narrative, members, m)
         case Reject(HallucinatedCitation(c), evidence) =>
           && (forall m :: m in evidence <==> m in members)
           && (forall m :: m in members ==> Occurs(narrative, Citation(m)))
           && Occurs(narrative, Citation(c)) && c !in members
  {
    hide Occurs, Citation, Cited, FirstUncited;
    var cited := Cited(narrative);
    forall u ensures u in cited <==> Occurs(narrative, Citation(u)) {
      CitedIffOccurs(narrative, u);
    }
    FirstUncitedIs(members, cited);
    var foreign := cited - Members(members);
    if foreign != {} {
      assert first(foreign) in foreign;
    } else if Members(members) <= cited {
      forall u | u in cited ensures u in Members(members) {
        assert u !in foreign;
      }
      assert cited == Members(members);
    }
  }
}
