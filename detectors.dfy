/**
 * The text detectors whose results feed the scoring engine: the
 * normalise-and-deduplicate step of skill detection, subskill detection,
 * the certification filter, the section scanner and the education map.
 * The regular-expression scans that produce raw matches are inputs here.
 */
module Detectors {
  import opened Wrappers
  import opened Strings
  import opened Seqs

  // ---------------------------------------------------------------------
  // Skill detection: normalisation and de-duplication of the raw matches
  // ---------------------------------------------------------------------

  /** A raw match that names Node (`node` or `node.js`, any case). */
  predicate IsNodeAlias(m: string) {
    Lower(m) == "node" || Lower(m) == "node.js"
  }

  /** A raw match that names C or C++ (`c` or `c++`, any case). */
  predicate IsCAlias(m: string) {
    Lower(m) == "c" || Lower(m) == "c++"
  }

  /** The canonical label of one raw skill match; other matches keep their own spelling. */
  function NormalizeSkill(m: string): (r: string)
    ensures IsNodeAlias(m) <==> Lower(r) == "node"
    ensures IsCAlias(m) ==> Lower(r) == "c/c++"
    ensures !IsNodeAlias(m) && !IsCAlias(m) ==> r == m
  {
    CanonicalLabels();
    if IsNodeAlias(m) then "Node"
    else if IsCAlias(m) then "C/C++"
    else m
  }

  /** The raw matches, each replaced by its canonical label. */
  function Normalized(matches: seq<string>): (r: seq<string>)
    ensures |r| == |matches|
  {
    seq(|matches|, i requires 0 <= i < |matches| => NormalizeSkill(matches[i]))
  }

  lemma CanonicalLabels()
    ensures Lower("Node") == "node" && Lower("C/C++") == "c/c++"
  {
  }

  /**
   * The labels `extractSkills` returns for the raw list of matches of the
   * skill pattern: canonical labels, without exact duplicates, in the order
   * in which each label first appears.
   */
  function ExtractSkills(matches: seq<string>): (r: seq<string>)
    ensures NoDuplicates(r)
    ensures forall i :: 0 <= i < |r| ==>
      r[i] == "Node" || r[i] == "C/C++" || (r[i] in matches && !IsNodeAlias(r[i]) && !IsCAlias(r[i]))
    ensures forall i :: 0 <= i < |matches| && IsNodeAlias(matches[i]) ==> "Node" in r
    ensures forall i :: 0 <= i < |matches| && IsCAlias(matches[i]) ==> "C/C++" in r
    ensures forall i :: 0 <= i < |matches| && !IsNodeAlias(matches[i]) && !IsCAlias(matches[i]) ==> matches[i] in r
    ensures forall i :: 0 <= i < |r| ==> r[i] in Normalized(matches)
    ensures forall i, j :: 0 <= i < j < |r| ==>
      FirstIndex(Normalized(matches), r[i]) < FirstIndex(Normalized(matches), r[j])
  {
    var n := Normalized(matches);
    var r := Uniq(n);
    forall i | 0 <= i < |matches| ensures NormalizeSkill(matches[i]) in r {
      assert n[i] == NormalizeSkill(matches[i]);
    }
    forall i | 0 <= i < |r| ensures r[i] == "Node" || r[i] == "C/C++" || (r[i] in matches && !IsNodeAlias(r[i]) && !IsCAlias(r[i])) {
      var k := FirstIndex(n, r[i]);
      assert n[k] == NormalizeSkill(matches[k]);
    }
    r
  }

  /** Normalising a label twice gives the same label as normalising it once. */
  lemma NormalizeIdempotent(m: string)
    ensures NormalizeSkill(NormalizeSkill(m)) == NormalizeSkill(m)
  {
    CanonicalLabels();
  }

  /** Running the normalise-and-deduplicate step on its own output changes nothing. */
  lemma ExtractSkillsIdempotent(matches: seq<string>)
    ensures ExtractSkills(ExtractSkills(matches)) == ExtractSkills(matches)
  {
    var r := ExtractSkills(matches);
    CanonicalLabels();
    assert Normalized(r) == r by {
      forall i | 0 <= i < |r| ensures Normalized(r)[i] == r[i] { }
    }
    UniqOfDistinct(r);
  }

  /**
   * Detection as `calculateScore` tests it, on the output of this step: some
   * label equals the skill ignoring case exactly when some raw match
   * normalises to such a label.
   */
  lemma DetectedAfterNormalizing(matches: seq<string>, skill: string)
    ensures (exists i :: 0 <= i < |ExtractSkills(matches)| && Lower(ExtractSkills(matches)[i]) == Lower(skill))
        <==> (exists i :: 0 <= i < |matches| && Lower(NormalizeSkill(matches[i])) == Lower(skill))
  {
    var r := ExtractSkills(matches);
    var n := Normalized(matches);
    if i :| 0 <= i < |r| && Lower(r[i]) == Lower(skill) {
      var k := FirstIndex(n, r[i]);
      assert n[k] == NormalizeSkill(matches[k]);
    }
    if i :| 0 <= i < |matches| && Lower(NormalizeSkill(matches[i])) == Lower(skill) {
      assert n[i] == NormalizeSkill(matches[i]);
      var j := FirstIndex(r, n[i]);
      assert Lower(r[j]) == Lower(skill);
    }
  }

  /**
   * A skill configured as `Node.js`, `C` or `C++` (any case) is never found
   * among the normalised labels: its matches are renamed to `Node` or `C/C++`.
   */
  lemma AliasSkillNeverDetected(matches: seq<string>, skill: string)
    requires Lower(skill) == "node.js" || Lower(skill) == "c" || Lower(skill) == "c++"
    ensures forall i :: 0 <= i < |ExtractSkills(matches)| ==> Lower(ExtractSkills(matches)[i]) != Lower(skill)
  {
    CanonicalLabels();
  }

  // ---------------------------------------------------------------------
  // Subskill detection
  // ---------------------------------------------------------------------

  /**
   * `extractSubskills`: the subskills configured under the lower-cased skill
   * name that occur, ignoring case, anywhere in the text, in configured order;
   * nothing when no subskills are configured under that key.
   */
  function ExtractSubskills(text: string, skill: string, skillSubskills: map<string, seq<string>>): (r: seq<string>)
    ensures Lower(skill) !in skillSubskills ==> r == []
    ensures forall i :: 0 <= i < |r| ==> Contains(Lower(text), Lower(r[i]))
    ensures Lower(skill) in skillSubskills ==> IsSubsequence(r, skillSubskills[Lower(skill)])
    ensures Lower(skill) in skillSubskills ==>
      var configured := skillSubskills[Lower(skill)];
      forall i :: 0 <= i < |configured| && Contains(Lower(text), Lower(configured[i])) ==>
        multiset(r)[configured[i]] == multiset(configured)[configured[i]]
  {
    var key := Lower(skill);
    if key !in skillSubskills then []
    else Filter(skillSubskills[key], subskill => Contains(Lower(text), Lower(subskill)))
  }

  // ---------------------------------------------------------------------
  // Certifications
  // ---------------------------------------------------------------------

  /** A phrase that mentions JavaScript in any case. */
  predicate MentionsJavaScript(cert: string) {
    Contains(Lower(cert), "javascript")
  }

  /**
   * The filter of `extractCertifications` over the raw certification phrases:
   * every phrase not mentioning JavaScript, in its original order.
   */
  function ExtractCertifications(raw: seq<string>): (r: seq<string>)
    ensures forall i :: 0 <= i < |r| ==> !MentionsJavaScript(r[i])
    ensures IsSubsequence(r, raw)
    ensures forall i :: 0 <= i < |raw| && !MentionsJavaScript(raw[i]) ==>
      multiset(r)[raw[i]] == multiset(raw)[raw[i]]
  {
    Filter(raw, cert => !MentionsJavaScript(cert))
  }

  // ---------------------------------------------------------------------
  // Section scanner
  // ---------------------------------------------------------------------

  /** A (lower-cased) section heading that closes a scanned section starts at `q`. */
  predicate BoundaryAt(lt: string, q: nat) {
    OccursAt(lt, "education", q) || OccursAt(lt, "projects", q) || OccursAt(lt, "certifications", q)
  }

  /** `q` is the first index at or after `from` where a closing heading starts, or the end of `lt`. */
  ghost predicate IsSectionEnd(lt: string, from: nat, q: nat) {
    && from <= q <= |lt|
    && (q == |lt| || BoundaryAt(lt, q))
    && forall j: nat :: from <= j < q ==> !BoundaryAt(lt, j)
  }

  /** Where the lazy span started at `from` stops. */
  function SectionEnd(lt: string, from: nat): (q: nat)
    requires from <= |lt|
    ensures IsSectionEnd(lt, from, q)
    decreases |lt| - from
  {
    if from == |lt| || BoundaryAt(lt, from) then from else SectionEnd(lt, from + 1)
  }

  /**
   * `text[p..q]` is what the section pattern for `heading` matches: it starts at
   * the first case-insensitive occurrence of the heading and stops before the
   * first closing heading after the heading, or at the end of the text.
   */
  ghost predicate IsSectionSpan(text: string, heading: string, p: nat, q: nat) {
    IsFirstOccurrence(Lower(text), Lower(heading), p) && IsSectionEnd(Lower(text), p + |heading|, q)
  }

  /** The span that the section pattern for `heading` matches, if the heading occurs. */
  function FindSection(text: string, heading: string): (r: Option<(nat, nat)>)
    ensures r.None? <==> !Contains(Lower(text), Lower(heading))
    ensures r.Some? ==> IsSectionSpan(text, heading, r.value.0, r.value.1)
  {
    var lt := Lower(text);
    IndexOfFirst(lt, Lower(heading));
    match IndexOf(lt, Lower(heading), 0)
    case None => None
    case Some(p) => Some((p, SectionEnd(lt, p + |heading|)))
  }

  /** A section pattern matches at most one span. */
  lemma SectionSpanUnique(text: string, heading: string, p: nat, q: nat, p': nat, q': nat)
    requires IsSectionSpan(text, heading, p, q) && IsSectionSpan(text, heading, p', q')
    ensures p == p' && q == q'
  {
  }

  /** The skill occurs, ignoring case, inside the span the section pattern for `heading` matches. */
  ghost predicate SkillInSection(text: string, skill: string, heading: string) {
    exists p: nat, q: nat :: IsSectionSpan(text, heading, p, q) && Contains(Lower(text[p..q]), Lower(skill))
  }

  /** `checkSkillsInSection`: `scoreValue` when the skill occurs in the labelled section, else 0. */
  function CheckSkillsInSection(text: string, skill: string, heading: string, scoreValue: int): (r: int)
    ensures r == scoreValue || r == 0
    ensures SkillInSection(text, skill, heading) ==> r == scoreValue
    ensures !SkillInSection(text, skill, heading) ==> r == 0
    ensures !Contains(Lower(text), Lower(heading)) ==> r == 0
  {
    match FindSection(text, heading)
    case None =>
      0
    case Some((p, q)) =>
      if Contains(Lower(text[p..q]), Lower(skill)) then scoreValue
      else
        assert !SkillInSection(text, skill, heading) by {
          forall p': nat, q': nat | IsSectionSpan(text, heading, p', q')
            ensures !Contains(Lower(text[p'..q']), Lower(skill))
          {
            SectionSpanUnique(text, heading, p, q, p', q');
          }
        }
        0
  }

  // ---------------------------------------------------------------------
  // Education percentages
  // ---------------------------------------------------------------------

  /** The four education levels, in the order the patterns are tried. */
  datatype Level = Tenth | Twelfth | Undergraduate | Postgraduate

  /** The key under which a level is reported. */
  function LevelKey(level: Level): string {
    match level
    case Tenth => "10th"
    case Twelfth => "12th"
    case Undergraduate => "UG"
    case Postgraduate => "PG"
  }

  /** Different levels are reported under different keys. */
  lemma LevelKeysDistinct(a: Level, b: Level)
    requires a != b
    ensures LevelKey(a) != LevelKey(b)
  {
    var ka, kb := LevelKey(a), LevelKey(b);
    if |ka| == |kb| {
      if |ka| == 4 {
        assert ka[1] != kb[1];
      } else {
        assert ka[0] != kb[0];
      }
    }
  }

  const Levels: seq<Level> := [Tenth, Twelfth, Undergraduate, Postgraduate]

  /** The sentinel for a level whose pattern does not match. */
  const NotMentioned: string := "Not Mentioned"

  /** The reported value of a level, given its pattern's second capture (None: no match). */
  function EducationValue(capture: Option<string>): string {
    match capture
    case Some(c) => Trim(c)
    case None => NotMentioned
  }

  /**
   * A matched level reports its capture without surrounding white space; an
   * unmatched level reports the sentinel.
   */
  lemma EducationValueTrimmed(capture: Option<string>)
    ensures capture.None? ==> EducationValue(capture) == NotMentioned
    ensures capture.Some? ==> exists a: nat :: TrimmedAt(capture.value, a, EducationValue(capture))
    ensures capture.Some? ==> var r := EducationValue(capture);
      r == [] || (!IsSpace(r[0]) && !IsSpace(r[|r| - 1]))
  {
    match capture
    case None =>
    case Some(c) =>
      assert EducationValue(capture) == Trim(c);
  }

  /** The entries written by the first `n` rounds of the level loop. */
  function Filled(secondCapture: Level -> Option<string>, n: nat): map<string, string>
    requires n <= |Levels|
  {
    if n == 0 then map[]
    else Filled(secondCapture, n - 1)[LevelKey(Levels[n - 1]) := EducationValue(secondCapture(Levels[n - 1]))]
  }

  /**
   * `extractEducationPercentages`: fills one entry per level, in order, with
   * the trimmed second capture of that level's pattern or the sentinel.
   * `secondCapture` stands for running a level's pattern over the text.
   */
  method ExtractEducationPercentages(secondCapture: Level -> Option<string>) returns (r: map<string, string>)
    ensures r.Keys == {"10th", "12th", "UG", "PG"}
    ensures forall level: Level :: r[LevelKey(level)] == EducationValue(secondCapture(level))
    ensures forall level: Level :: secondCapture(level).None? ==> r[LevelKey(level)] == NotMentioned
  {
    r := map[];
    for i := 0 to |Levels|
      invariant r == Filled(secondCapture, i)
    {
      var level := Levels[i];
      var capture := secondCapture(level);
      if capture.Some? {
        r := r[LevelKey(level) := Trim(capture.value)];
      } else {
        r := r[LevelKey(level) := NotMentioned];
      }
    }
    FilledAll(secondCapture);
  }

  /** After all four rounds every level has its entry and no other key exists. */
  lemma FilledAll(secondCapture: Level -> Option<string>)
    ensures Filled(secondCapture, 4).Keys == {"10th", "12th", "UG", "PG"}
    ensures forall level: Level :: Filled(secondCapture, 4)[LevelKey(level)] == EducationValue(secondCapture(level))
  {
    var v := (level: Level) => EducationValue(secondCapture(level));
    assert Filled(secondCapture, 1) == map["10th" := v(Tenth)];
    assert Filled(secondCapture, 2) == Filled(secondCapture, 1)["12th" := v(Twelfth)];
    assert Filled(secondCapture, 3) == Filled(secondCapture, 2)["UG" := v(Undergraduate)];
    assert Filled(secondCapture, 4) == Filled(secondCapture, 3)["PG" := v(Postgraduate)];
    LevelKeysDistinct(Tenth, Twelfth);
    LevelKeysDistinct(Tenth, Undergraduate);
    LevelKeysDistinct(Tenth, Postgraduate);
    LevelKeysDistinct(Twelfth, Undergraduate);
    LevelKeysDistinct(Twelfth, Postgraduate);
    LevelKeysDistinct(Undergraduate, Postgraduate);
    var m := Filled(secondCapture, 4);
    forall level: Level ensures m[LevelKey(level)] == v(level) {
      match level
      case Tenth => assert m["10th"] == v(Tenth);
      case Twelfth => assert m["12th"] == v(Twelfth);
      case Undergraduate => assert m["UG"] == v(Undergraduate);
      case Postgraduate => assert m["PG"] == v(Postgraduate);
    }
  }
}
