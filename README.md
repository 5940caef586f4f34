# Résumé scoring core, modelled in Dafny

The résumé server accepts an uploaded CV and a set of recruiter-chosen skills
with weights. It extracts text from the document, finds evidence in that text
and returns a score per skill and a capped total. This project models the
decision logic of that pipeline and proves properties about it:

- **skill normalisation** (`Detectors.ExtractSkills`): skill matches found in
  the text are normalised. "node"/"node.js" become `Node` and "c"/"c++" become
  `C/C++`. Duplicates are then removed, keeping the first occurrence.
- **subskill detection** (`Detectors.ExtractSubskills`): the configured
  subskills of a skill are looked up under the skill's lower-cased name. Only
  those that occur in the text, ignoring case, are kept.
- **certificate filtering** (`Detectors.ExtractCertifications`): sentences
  that mention "javascript" are dropped.
- **section check** (`Detectors.FindSection`, `Detectors.CheckSkillsInSection`):
  a section starts at the leftmost case-insensitive occurrence of a heading.
  It runs to the earliest following "Education", "Projects" or
  "Certifications", or to the end of the text. The section bonus is awarded
  when the section mentions the skill.
- **education table** (`Detectors.ExtractEducationPercentages`): the result
  always has the four keys `10th`, `12th`, `UG` and `PG`. Each value is the
  trimmed second capture of its level's pattern, or `Not Mentioned`.
- **the scorer** (`Scoring.ScoreSkill`, `Scoring.CalculateScore`): each skill
  gets:
  - the base weight when detected;
  - 20 per work section that mentions it;
  - the subskill weight per detected subskill;
  - the project weight per matching project;
  - the certificate weight once, and only when the running score is positive.

  Each skill is capped at 100. The per-skill scores are summed and that sum is
  capped at 100 as well.

The scorer is imperative in the source (`forEach` loops that update running
totals), so it is modelled as methods with loops. Each method is proved equal
to a specification function (`Scoring.SkillScore`, `Scoring.TotalScore`), and
lemmas prove the score properties about those functions. The detectors are
pure filters and maps, so they are modelled as functions. The education table
is built by a loop that writes into an object, so it is modelled as a method
whose loop fills a `map`.

The following inputs are parameters of the model:

- the raw matches of the skill and certificate regular expressions;
- the parsed projects;
- the second capture group of each education pattern.

The model then proves what the code does with them.

Where the code behaves differently from what its comments and names
suggest, the model follows the code:

- Subskills are looked up only under the lower-cased skill name. A table key
  with capitals is never found, even when it matches the skill exactly.
- Scores are capped at 100 from above only. No lower clamp exists, so the
  `0 ≤ score` bounds are proved under non-negative weights
  (`NonNegativeWeights`).
- The project text is built from a field the parsed projects never have
  (`description`), so it ends in the word `undefined`.
  `Scoring.UndefinedMatchesEveryProject` proves the consequence: a skill whose
  lower-cased name occurs in "undefined" matches every project. Examples are
  "de", "fin" and the empty skill.
- Detection compares the normalised labels with the configured skill, ignoring
  case. A configured skill named "Node.js", "C" or "C++" is therefore never
  detected (`Detectors.AliasSkillNeverDetected`).

## Model

| member | source | states |
|---|---|---|
| Detectors.ExtractSkills | index.js:58-68 | no duplicates; every output is `Node`, `C/C++` or an unchanged non-alias match; every node alias yields `Node`, every C alias yields `C/C++`, every other match is kept; output order is the order of first occurrence among the normalised matches |
| Detectors.NormalizeSkill | index.js:59-66 | a match is a Node alias exactly when its label lower-cases to "node"; a C alias gets a label that lower-cases to "c/c++"; any other match is returned unchanged |
| Detectors.NormalizeIdempotent | index.js:59-67 | normalising a normalised label changes nothing |
| Detectors.ExtractSkillsIdempotent | index.js:58-68 | running the normalise-and-deduplicate step on its own output returns the same list |
| Detectors.DetectedAfterNormalizing | index.js:204 | a skill is found case-insensitively in the normalised list exactly when some raw match, normalised, equals it ignoring case |
| Detectors.AliasSkillNeverDetected | index.js:60-66 | a configured skill spelled "node.js", "c" or "c++" (any case) equals no normalised label, so it never earns the detection weight |
| Detectors.ExtractSubskills | index.js:76-91 | no table entry under the lower-cased skill gives `[]`; every result occurs in the text ignoring case; the result keeps the table's order and keeps every listed subskill that occurs, as often as it is listed |
| Detectors.MentionsJavaScript | index.js:103 | defines the exclusion test: the lower-cased phrase contains "javascript" |
| Detectors.ExtractCertifications | index.js:97-105 | no result mentions "javascript" in any case; the result is an order-preserving subsequence of the matches; every match without "javascript" is kept, with its multiplicity |
| Detectors.SectionEnd | index.js:173 | the end is the first position at or after the start where "education", "projects" or "certifications" begins, or the end of the text |
| Detectors.FindSection | index.js:173-174 | there is no section exactly when the heading does not occur ignoring case; otherwise the span starts at the heading's leftmost occurrence and stops at the first boundary after it |
| Detectors.SectionSpanUnique | index.js:173-174 | the section span of a heading is unique (the match is deterministic) |
| Detectors.CheckSkillsInSection | index.js:172-182 | the result is the score value when the heading's section mentions the skill ignoring case, and 0 otherwise (in particular when the heading is absent) |
| Detectors.ExtractEducationPercentages | index.js:270-297 | the result has exactly the keys `10th`, `12th`, `UG` and `PG`; each value is that level's trimmed capture, and `Not Mentioned` when the pattern did not match |
| Detectors.EducationValue | index.js:289-293 | defines a level's value: the trimmed second capture when the pattern matched, else `Not Mentioned` |
| Detectors.EducationValueTrimmed | index.js:289-293 | an unmatched level reports `Not Mentioned`; a matched level reports a slice of its capture with only white space removed around it, and no white space at either end |
| Detectors.FilledAll | index.js:285-294 | after the loop over all four levels, every level has its own entry and nothing else is present |
| Strings.Lower | index.js:80 | `toLowerCase` over ASCII: defines the lower-cased text, with the same length as the input |
| Strings.LowerIsLowerCase | index.js:80 | the lower-cased text holds no ASCII capital, and every character that is not one is kept |
| Strings.Contains | index.js:88 | defines `includes`: the pattern occurs at some index (the empty pattern occurs everywhere) |
| Strings.IndexOf | index.js:173-174 | the search finds the leftmost occurrence at or after the start, or reports that there is none |
| Strings.Trim | index.js:290 | the result is a slice of the input without leading or trailing whitespace, and everything removed is whitespace |
| Seqs.Filter | index.js:87-89 | every kept element satisfies the predicate; the result is an order-preserving subsequence; elements that satisfy it keep their multiplicity |
| Seqs.FilterSnoc | index.js:102-104 | filtering a list with one more element appends that element exactly when it passes |
| Seqs.Uniq | index.js:58 | no duplicates; the same elements as the input; order of first occurrence |
| Seqs.UniqOfDistinct | index.js:58 | deduplicating a list without duplicates returns it unchanged |
| Scoring.IsSkillDetected | index.js:204 | defines detection: some detected label equals the skill, ignoring case |
| Scoring.SectionScore | index.js:213-215 | the three work-section checks add 20 for each of "Experience Summary", "Professional Experience" and "Work Experience" whose section mentions the skill |
| Scoring.SectionScoreValues | index.js:213-215 | the section contribution is 0, 20, 40 or 60 |
| Scoring.AddedPerItem | index.js:219-224 | adding the weight once per detected subskill adds count × weight |
| Scoring.ProjectText | index.js:228 | defines the searched text: title, skills used and the description field the parsed projects lack, which prints as `undefined` |
| Scoring.ProjectTextEndsInUndefined | index.js:228 | the searched text starts with the title and always ends in `undefined` |
| Scoring.ProjectMatches | index.js:233-236 | defines a match: the lower-cased project text contains one of the detected subskills or the skill, ignoring case |
| Scoring.MatchCount | index.js:227-244 | at most one match per project |
| Scoring.ProjectBonus | index.js:227-244 | the project loop adds the project weight (0 when absent) once per matching project |
| Scoring.ProjectBonusSnoc | index.js:227-244 | one more project adds the weight exactly when it matches |
| Scoring.RunningScore | index.js:203-244 | defines the score before the certificate step as the sum of the base, section, subskill and project contributions |
| Scoring.CertificationMentions | index.js:248 | defines the certificate test: some certification contains the skill, ignoring case |
| Scoring.CertificateBonus | index.js:246-252 | the bonus is 0 or the certificate weight (0 when absent); it is non-zero only when the running score is positive and a certification mentions the skill, and it is the weight in that case |
| Scoring.SkillScore | index.js:254-255 | a skill's score never exceeds 100, and equals the uncapped sum when that is at most 100 |
| Scoring.SumOfSkillScores | index.js:256 | defines the running total: the capped skill scores added once per entry of the skill list, duplicates included |
| Scoring.TotalScore | index.js:262-263 | the total never exceeds 100 |
| Scoring.RunningScoreParts | index.js:207-244 | in closed form, the running score is the base weight (when detected) + the section bonus + number of detected subskills × subskill weight + number of matching projects × project weight (0 when absent) |
| Scoring.ScoreSkill | index.js:193-257 | the per-skill steps, performed in order by the loops, produce exactly the skill's specified score |
| Scoring.CalculateScore | index.js:187-266 | the score map has exactly the configured skills as keys, each with its specified score, and the total is the capped sum over the configured list |
| Scoring.RunningScoreNonNegative | index.js:207-244 | with non-negative weights the running score is non-negative |
| Scoring.SkillScoreBounds | index.js:255 | with non-negative weights every skill score lies in [0, 100] |
| Scoring.SumOfSkillScoresNonNegative | index.js:256 | with non-negative weights the running total is non-negative |
| Scoring.TotalScoreBounds | index.js:263 | with non-negative weights the total lies in [0, 100], and equals the sum when the sum is at most 100 |
| Scoring.SumAtLeastEachSkill | index.js:256 | with non-negative weights the sum is at least each skill's score |
| Scoring.TotalAtLeastEachSkill | index.js:256-263 | with non-negative weights the total is at least each configured skill's score |
| Scoring.CertificationAloneScoresNothing | index.js:246-252 | a skill with no other evidence scores 0 even when a certificate mentions it |
| Scoring.CertificateCountsOnce | index.js:247-252 | once one certificate mentions the skill, further certificates change nothing: the bonus is added once |
| Scoring.UndefinedMatchesEveryProject | index.js:228 | because the project text ends in "undefined", a skill whose lower-cased name occurs in "undefined" matches every project |

## Left out

- File upload, HTTP routing, CORS, PDF/DOCX text extraction, file deletion and the listening server (index.js:1-15, 300-408): transport and I/O.
- The regular expressions themselves are not modelled. Their results are inputs:
  - the skill alternation match list;
  - the certificate sentence match list;
  - the project pattern;
  - the four education patterns.
- Email, phone, college and name extraction are not modelled. They are standalone regex lookups, and no score depends on them.
- `addSubskill`: it has no caller in the server.
- Logging (`console.log`): it does not affect results.
- Case folding covers ASCII only. Unicode lower-casing is not modelled, and neither are the case-insensitive regular-expression rules beyond ASCII.
- Skills are taken as a parameter. The source keeps them in a global that a request overwrites only when it supplies a non-empty list, so a request without skills reuses the previous request's list. That carried-over state is not modelled.
- Weights are integers. Weights that arrive as strings, `undefined` or `NaN` from the request body are not modelled. The `|| 0` default for the project and certificate weights is modelled as `Option`.
- Detectors.ExtractSubskills: the table is a map of the table's own keys. Keys inherited from the JavaScript object prototype (such as "constructor") are not modelled.
- Scoring.CalculateScore: the score object is a `map`, so the insertion order of its keys is not modelled.
- Scoring.CalculateScore: a skill named `__proto__` is not modelled. In the source, the assignment at index.js:255 creates no key for it, and index.js:256 adds `Object.prototype` to the total, which turns the total into a string. The model stores the integer score under that key and adds it to an integer total.
- Detectors.ExtractEducationPercentages: the result is a `map`, so the fixed key order 10th, 12th, UG, PG of the source's object (index.js:287-294) is not modelled.
- Skill names are joined into one regular expression (index.js:52). A name whose metacharacters form a valid pattern is matched as a pattern, not literally: "Node.js" also matches "Nodexjs". A name whose metacharacters form an invalid pattern, such as "C++" ("nothing to repeat"), makes the construction throw, and the request ends in the 500 response at index.js:366. The model takes the match list as given, so neither effect is modelled.
- Concurrency between requests is not modelled.
