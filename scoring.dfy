/**
 * The scoring engine (`calculateScore`): for every configured skill it adds
 * up independent signals found in the résumé, caps the skill's score at 100,
 * and caps the sum over all skills at 100.
 */
module Scoring {
  import opened Wrappers
  import opened Strings
  import opened Seqs
  import opened Detectors

  /** One project as the project extractor records it (it never sets a description). */
  datatype Project = Project(title: string, skillsUsed: string, year: string)

  /**
   * The per-request configuration: the skills to score (`requiredSkills`),
   * the subskill table (`skillSubskills`) and the four weights. The project
   * and certificate weights may be absent and then count as 0.
   */
  datatype SkillConfig = SkillConfig(
    skills: seq<string>,
    subskills: map<string, seq<string>>,
    skillScore: int,
    subSkillScore: int,
    projectScore: Option<int>,
    certificateScore: Option<int>)

  /** What the extractors found in the résumé text, as `calculateScore` receives it. */
  datatype Evidence = Evidence(
    skillsDetected: seq<string>,
    projects: seq<Project>,
    certifications: seq<string>,
    text: string)

  /** The bonus each matching section is worth. */
  const SectionBonus: int := 20

  /** The cap applied to each skill's score and to the total. */
  const ScoreCap: int := 100

  /** `Math.min`. */
  function Min(a: int, b: int): int {
    if a <= b then a else b
  }

  /** Every weight that is supplied is non-negative. */
  predicate NonNegativeWeights(cfg: SkillConfig) {
    cfg.skillScore >= 0 && cfg.subSkillScore >= 0 && cfg.projectScore.GetOr(0) >= 0 && cfg.certificateScore.GetOr(0) >= 0
  }

  // ---------------------------------------------------------------------
  // The signals, one specification function each
  // ---------------------------------------------------------------------

  /** Some detected label equals the skill, ignoring case. */
  predicate IsSkillDetected(skillsDetected: seq<string>, skill: string) {
    exists i :: 0 <= i < |skillsDetected| && Lower(skillsDetected[i]) == Lower(skill)
  }

  /** The three section bonuses together. */
  function SectionScore(text: string, skill: string): (r: int)
    ensures r == (if SkillInSection(text, skill, "Experience Summary") then SectionBonus else 0)
               + (if SkillInSection(text, skill, "Professional Experience") then SectionBonus else 0)
               + (if SkillInSection(text, skill, "Work Experience") then SectionBonus else 0)
  {
    var summary := CheckSkillsInSection(text, skill, "Experience Summary", SectionBonus);
    var professional := CheckSkillsInSection(text, skill, "Professional Experience", SectionBonus);
    var work := CheckSkillsInSection(text, skill, "Work Experience", SectionBonus);
    summary + professional + work
  }

  /** The three section calls contribute 0, 20, 40 or 60. */
  lemma SectionScoreValues(text: string, skill: string)
    ensures var r := SectionScore(text, skill); r == 0 || r == 20 || r == 40 || r == 60
  {
  }

  /** The text a project is searched in: title, skills used and the never-set description. */
  function ProjectText(project: Project): (r: string)
  {
    project.title + " " + project.skillsUsed + " " + "undefined"
  }

  /** The searched text starts with the title and always ends in the word `undefined`. */
  lemma ProjectTextEndsInUndefined(project: Project)
    ensures |ProjectText(project)| >= |project.title| + 9
    ensures ProjectText(project)[..|project.title|] == project.title
    ensures ProjectText(project)[|ProjectText(project)| - 9..] == "undefined"
  {
  }

  /** The project mentions, ignoring case, one of the detected subskills or the skill itself. */
  predicate ProjectMatches(project: Project, skill: string, subskills: seq<string>) {
    var description := Lower(ProjectText(project));
    (exists i :: 0 <= i < |subskills| && Contains(description, Lower(subskills[i])))
    || Contains(description, Lower(skill))
  }

  /** How many of the projects match. */
  function MatchCount(projects: seq<Project>, skill: string, subskills: seq<string>): (n: nat)
    ensures n <= |projects|
  {
    if projects == [] then 0
    else
      MatchCount(projects[..|projects| - 1], skill, subskills)
      + (if ProjectMatches(projects[|projects| - 1], skill, subskills) then 1 else 0)
  }

  /** `weight` added once per item of a `forEach` over `n` items. */
  function AddedPerItem(n: nat, weight: int): (r: int)
    ensures r == n * weight
  {
    if n == 0 then 0 else AddedPerItem(n - 1, weight) + weight
  }

  /** `weight` added once per matching project, in project order. */
  function ProjectBonus(projects: seq<Project>, skill: string, subskills: seq<string>, weight: int): (r: int)
    ensures r == MatchCount(projects, skill, subskills) * weight
  {
    if projects == [] then 0
    else
      ProjectBonus(projects[..|projects| - 1], skill, subskills, weight)
      + (if ProjectMatches(projects[|projects| - 1], skill, subskills) then weight else 0)
  }

  /** Scoring one more project adds its weight exactly when it matches. */
  lemma ProjectBonusSnoc(projects: seq<Project>, k: nat, skill: string, subskills: seq<string>, weight: int)
    requires k < |projects|
    ensures ProjectBonus(projects[..k + 1], skill, subskills, weight)
         == ProjectBonus(projects[..k], skill, subskills, weight)
            + (if ProjectMatches(projects[k], skill, subskills) then weight else 0)
  {
    assert projects[..k + 1][..k] == projects[..k];
  }

  /** Some certification mentions the skill, ignoring case. */
  predicate CertificationMentions(certifications: seq<string>, skill: string) {
    exists i :: 0 <= i < |certifications| && Contains(Lower(certifications[i]), Lower(skill))
  }

  /** The score of a skill after the base, section, subskill and project steps. */
  function RunningScore(cfg: SkillConfig, ev: Evidence, skill: string): int {
    var subskills := ExtractSubskills(ev.text, skill, cfg.subskills);
    (if IsSkillDetected(ev.skillsDetected, skill) then cfg.skillScore else 0)
    + SectionScore(ev.text, skill)
    + AddedPerItem(|subskills|, cfg.subSkillScore)
    + ProjectBonus(ev.projects, skill, subskills, cfg.projectScore.GetOr(0))
  }

  /** The certificate bonus: only for a positive running score and a certification naming the skill. */
  function CertificateBonus(cfg: SkillConfig, ev: Evidence, skill: string): (r: int)
    ensures r == 0 || r == cfg.certificateScore.GetOr(0)
    ensures r != 0 ==> RunningScore(cfg, ev, skill) > 0 && CertificationMentions(ev.certifications, skill)
    ensures RunningScore(cfg, ev, skill) > 0 && CertificationMentions(ev.certifications, skill) ==>
      r == cfg.certificateScore.GetOr(0)
  {
    if RunningScore(cfg, ev, skill) > 0 && CertificationMentions(ev.certifications, skill)
    then cfg.certificateScore.GetOr(0)
    else 0
  }

  /** The capped score of one skill. */
  function SkillScore(cfg: SkillConfig, ev: Evidence, skill: string): (r: int)
    ensures r <= ScoreCap
    ensures RunningScore(cfg, ev, skill) + CertificateBonus(cfg, ev, skill) <= ScoreCap ==>
      r == RunningScore(cfg, ev, skill) + CertificateBonus(cfg, ev, skill)
  {
    Min(RunningScore(cfg, ev, skill) + CertificateBonus(cfg, ev, skill), ScoreCap)
  }

  /** The uncapped sum of the capped skill scores, one term per entry of `skills`. */
  function SumOfSkillScores(cfg: SkillConfig, ev: Evidence, skills: seq<string>): int {
    if skills == [] then 0
    else SumOfSkillScores(cfg, ev, skills[..|skills| - 1]) + SkillScore(cfg, ev, skills[|skills| - 1])
  }

  /** The capped total. */
  function TotalScore(cfg: SkillConfig, ev: Evidence): (r: int)
    ensures r <= ScoreCap
  {
    Min(SumOfSkillScores(cfg, ev, cfg.skills), ScoreCap)
  }

  /** Unfolds `RunningScore` once, for the engine's proof. */
  lemma RunningScoreUnfold(cfg: SkillConfig, ev: Evidence, skill: string)
    ensures var subskills := ExtractSubskills(ev.text, skill, cfg.subskills);
      RunningScore(cfg, ev, skill)
      == (if IsSkillDetected(ev.skillsDetected, skill) then cfg.skillScore else 0)
         + SectionScore(ev.text, skill)
         + AddedPerItem(|subskills|, cfg.subSkillScore)
         + ProjectBonus(ev.projects, skill, subskills, cfg.projectScore.GetOr(0))
  {
  }

  /**
   * The running score in closed form: the base weight when detected, the
   * section bonus, the subskill weight once per detected subskill and the
   * project weight (0 when absent) once per matching project.
   */
  lemma RunningScoreParts(cfg: SkillConfig, ev: Evidence, skill: string)
    ensures var subskills := ExtractSubskills(ev.text, skill, cfg.subskills);
      RunningScore(cfg, ev, skill)
      == (if IsSkillDetected(ev.skillsDetected, skill) then cfg.skillScore else 0)
         + SectionScore(ev.text, skill)
         + |subskills| * cfg.subSkillScore
         + MatchCount(ev.projects, skill, subskills) * cfg.projectScore.GetOr(0)
  {
  }

  /** The capped score of a skill, from its running score and the certificate step. */
  lemma CappedScore(cfg: SkillConfig, ev: Evidence, skill: string, running: int, final: int)
    requires running == RunningScore(cfg, ev, skill)
    requires final == running + (if running > 0 && CertificationMentions(ev.certifications, skill)
                                 then cfg.certificateScore.GetOr(0) else 0)
    ensures Min(final, ScoreCap) == SkillScore(cfg, ev, skill)
  {
  }

  // ---------------------------------------------------------------------
  // The engine
  // ---------------------------------------------------------------------

  /** The body of the per-skill loop of `calculateScore`: accumulates one skill's score. */
  method ScoreSkill(cfg: SkillConfig, ev: Evidence, skill: string) returns (score: int)
    ensures score == SkillScore(cfg, ev, skill)
  {
    var skillScore := 0;

    var isSkillDetected := IsSkillDetected(ev.skillsDetected, skill);
    if isSkillDetected {
      skillScore := skillScore + cfg.skillScore;
    }

    skillScore := skillScore + CheckSkillsInSection(ev.text, skill, "Experience Summary", SectionBonus);
    skillScore := skillScore + CheckSkillsInSection(ev.text, skill, "Professional Experience", SectionBonus);
    skillScore := skillScore + CheckSkillsInSection(ev.text, skill, "Work Experience", SectionBonus);

    var subskillsDetected := ExtractSubskills(ev.text, skill, cfg.subskills);
    ghost var afterSections := skillScore;
    assert afterSections == (if IsSkillDetected(ev.skillsDetected, skill) then cfg.skillScore else 0) + SectionScore(ev.text, skill);
    for i := 0 to |subskillsDetected|
      invariant skillScore == afterSections + AddedPerItem(i, cfg.subSkillScore)
    {
      skillScore := skillScore + cfg.subSkillScore;
    }

    ghost var afterSubskills := skillScore;
    var projectScore := cfg.projectScore.GetOr(0);
    for k := 0 to |ev.projects|
      invariant skillScore == afterSubskills + ProjectBonus(ev.projects[..k], skill, subskillsDetected, projectScore)
    {
      var project := ev.projects[k];
      var projectMatchFound := false;
      if ProjectMatches(project, skill, subskillsDetected) {
        projectMatchFound := true;
      }
      if projectMatchFound {
        skillScore := skillScore + projectScore;
      }
      ProjectBonusSnoc(ev.projects, k, skill, subskillsDetected, projectScore);
    }
    assert ev.projects[..|ev.projects|] == ev.projects;
    RunningScoreUnfold(cfg, ev, skill);
    ghost var running := skillScore;

    if skillScore > 0 {
      if CertificationMentions(ev.certifications, skill) {
        skillScore := skillScore + cfg.certificateScore.GetOr(0);
      }
    }

    score := Min(skillScore, ScoreCap);
    CappedScore(cfg, ev, skill, running, skillScore);
  }

  /**
   * `calculateScore`: scores every configured skill in order, records each
   * capped score under the skill's name, and returns the capped total.
   */
  method CalculateScore(cfg: SkillConfig, ev: Evidence) returns (skillScores: map<string, int>, totalScore: int)
    ensures skillScores.Keys == set s | s in cfg.skills
    ensures forall s :: s in skillScores ==> skillScores[s] == SkillScore(cfg, ev, s)
    ensures totalScore == TotalScore(cfg, ev)
  {
    skillScores := map[];
    totalScore := 0;
    for i := 0 to |cfg.skills|
      invariant skillScores.Keys == set s | s in cfg.skills[..i]
      invariant forall s :: s in skillScores ==> skillScores[s] == SkillScore(cfg, ev, s)
      invariant totalScore == SumOfSkillScores(cfg, ev, cfg.skills[..i])
    {
      var skill := cfg.skills[i];
      var score := ScoreSkill(cfg, ev, skill);
      skillScores := skillScores[skill := score];
      totalScore := totalScore + skillScores[skill];
      TakeSnoc(cfg.skills, i);
    }
    assert cfg.skills[..|cfg.skills|] == cfg.skills;
    totalScore := Min(totalScore, ScoreCap);
  }

  // ---------------------------------------------------------------------
  // Properties of the score
  // ---------------------------------------------------------------------

  /** With non-negative weights the running score is non-negative. */
  lemma RunningScoreNonNegative(cfg: SkillConfig, ev: Evidence, skill: string)
    requires NonNegativeWeights(cfg)
    ensures RunningScore(cfg, ev, skill) >= 0
  {
    var subskills := ExtractSubskills(ev.text, skill, cfg.subskills);
    RunningScoreParts(cfg, ev, skill);
    ProductNonNegative(|subskills|, cfg.subSkillScore);
    ProductNonNegative(MatchCount(ev.projects, skill, subskills), cfg.projectScore.GetOr(0));
  }

  lemma ProductNonNegative(n: nat, w: int)
    requires w >= 0
    ensures n * w >= 0
  {
  }

  /** With non-negative weights every skill scores between 0 and 100. */
  lemma SkillScoreBounds(cfg: SkillConfig, ev: Evidence, skill: string)
    requires NonNegativeWeights(cfg)
    ensures 0 <= SkillScore(cfg, ev, skill) <= ScoreCap
  {
    RunningScoreNonNegative(cfg, ev, skill);
  }

  /** With non-negative weights the uncapped sum of skill scores is non-negative. */
  lemma {:induction false} SumOfSkillScoresNonNegative(cfg: SkillConfig, ev: Evidence, skills: seq<string>)
    requires NonNegativeWeights(cfg)
    ensures SumOfSkillScores(cfg, ev, skills) >= 0
  {
    if skills != [] {
      SumOfSkillScoresNonNegative(cfg, ev, skills[..|skills| - 1]);
      SkillScoreBounds(cfg, ev, skills[|skills| - 1]);
    }
  }

  /**
   * With non-negative weights the total lies between 0 and 100, and it is the
   * plain sum of the skill scores whenever that sum is at most 100.
   */
  lemma TotalScoreBounds(cfg: SkillConfig, ev: Evidence)
    requires NonNegativeWeights(cfg)
    ensures 0 <= TotalScore(cfg, ev) <= ScoreCap
    ensures SumOfSkillScores(cfg, ev, cfg.skills) <= ScoreCap ==> TotalScore(cfg, ev) == SumOfSkillScores(cfg, ev, cfg.skills)
  {
    SumOfSkillScoresNonNegative(cfg, ev, cfg.skills);
  }

  /** With non-negative weights the uncapped sum is at least the score of each listed skill. */
  lemma {:induction false} SumAtLeastEachSkill(cfg: SkillConfig, ev: Evidence, skills: seq<string>, i: nat)
    requires NonNegativeWeights(cfg) && i < |skills|
    ensures SumOfSkillScores(cfg, ev, skills) >= SkillScore(cfg, ev, skills[i])
  {
    var p := skills[..|skills| - 1];
    SkillScoreBounds(cfg, ev, skills[|skills| - 1]);
    if i < |skills| - 1 {
      SumAtLeastEachSkill(cfg, ev, p, i);
    } else {
      SumOfSkillScoresNonNegative(cfg, ev, p);
    }
  }

  /** With non-negative weights the total is at least every configured skill's score. */
  lemma TotalAtLeastEachSkill(cfg: SkillConfig, ev: Evidence, i: nat)
    requires NonNegativeWeights(cfg) && i < |cfg.skills|
    ensures TotalScore(cfg, ev) >= SkillScore(cfg, ev, cfg.skills[i])
  {
    SumAtLeastEachSkill(cfg, ev, cfg.skills, i);
  }

  /**
   * A certification alone never scores: without detection, section, subskill
   * or project evidence the skill scores 0 whatever the certifications say.
   */
  lemma CertificationAloneScoresNothing(cfg: SkillConfig, ev: Evidence, skill: string)
    requires !IsSkillDetected(ev.skillsDetected, skill)
    requires !SkillInSection(ev.text, skill, "Experience Summary")
    requires !SkillInSection(ev.text, skill, "Professional Experience")
    requires !SkillInSection(ev.text, skill, "Work Experience")
    requires ExtractSubskills(ev.text, skill, cfg.subskills) == []
    requires MatchCount(ev.projects, skill, []) == 0
    ensures SkillScore(cfg, ev, skill) == 0
  {
    RunningScoreParts(cfg, ev, skill);
  }

  /**
   * The certificate bonus is added at most once: once one certification
   * names the skill, further certifications do not change its score.
   */
  lemma CertificateCountsOnce(cfg: SkillConfig, ev: Evidence, skill: string, more: seq<string>)
    requires CertificationMentions(ev.certifications, skill)
    ensures SkillScore(cfg, ev.(certifications := ev.certifications + more), skill) == SkillScore(cfg, ev, skill)
  {
    var ev' := ev.(certifications := ev.certifications + more);
    var i :| 0 <= i < |ev.certifications| && Contains(Lower(ev.certifications[i]), Lower(skill));
    assert ev'.certifications[i] == ev.certifications[i];
    assert CertificationMentions(ev'.certifications, skill);
    RunningScoreIgnoresCertifications(cfg, ev, ev', skill);
  }

  /** The running score does not look at the certifications. */
  lemma RunningScoreIgnoresCertifications(cfg: SkillConfig, ev: Evidence, ev': Evidence, skill: string)
    requires ev'.text == ev.text && ev'.skillsDetected == ev.skillsDetected && ev'.projects == ev.projects
    ensures RunningScore(cfg, ev', skill) == RunningScore(cfg, ev, skill)
  {
  }

  /**
   * Every project text ends in the word `undefined` (the description the
   * project extractor never sets), so a skill whose lower-cased name occurs
   * in that word matches every project.
   */
  lemma {:induction false} UndefinedMatchesEveryProject(projects: seq<Project>, skill: string, subskills: seq<string>)
    requires Contains("undefined", Lower(skill))
    ensures MatchCount(projects, skill, subskills) == |projects|
  {
    if projects != [] {
      UndefinedMatchesEveryProject(projects[..|projects| - 1], skill, subskills);
      var project := projects[|projects| - 1];
      var head := project.title + " " + project.skillsUsed + " ";
      assert ProjectText(project) == head + "undefined";
      LowerAppend(head, "undefined");
      assert Lower("undefined") == "undefined";
      ContainsInSuffix(Lower(head), "undefined", Lower(skill));
    }
  }
}
