/** The front end's simulated analysis service: `analyzeProfile` scores the selected roles,
    recommends some, and lists matched and missing skills; `generateGdTopics` picks group
    discussion topics per role. `Math.random` draws are parameters; the simulated delay is
    left out. */
module ApiService {
  import opened Wrappers
  import Records
  import Sorting

  // ---------------------------------------------------------------- de-duplication

  function KeysOf<T>(xs: seq<T>, key: T -> string): set<string> {
    set i | 0 <= i < |xs| :: key(xs[i])
  }

  /** Keeps the first element of every key, in order (`new Set(...)`, or a `has`/`add` loop). */
  function DedupeBy<T>(xs: seq<T>, key: T -> string): seq<T> {
    if xs == [] then []
    else
      var kept := DedupeBy(xs[..|xs| - 1], key);
      if key(xs[|xs| - 1]) in KeysOf(kept, key) then kept else kept + [xs[|xs| - 1]]
  }

  /** Reference definition: the elements of `xs[..n]` that no earlier element shares a key with. */
  function FirstOccurrences<T>(xs: seq<T>, key: T -> string, n: nat): seq<T>
    requires n <= |xs|
  {
    if n == 0 then []
    else
      FirstOccurrences(xs, key, n - 1)
      + (if forall i :: 0 <= i < n - 1 ==> key(xs[i]) != key(xs[n - 1]) then [xs[n - 1]] else [])
  }

  /** De-duplication keeps every key once and nothing else. */
  lemma {:induction false} DedupeKeys<T>(xs: seq<T>, key: T -> string)
    ensures KeysOf(DedupeBy(xs, key), key) == KeysOf(xs, key)
    ensures forall i, j :: 0 <= i < j < |DedupeBy(xs, key)| ==> key(DedupeBy(xs, key)[i]) != key(DedupeBy(xs, key)[j])
  {
    if xs != [] {
      var init := xs[..|xs| - 1];
      var last := xs[|xs| - 1];
      DedupeKeys(init, key);
      var kept := DedupeBy(init, key);
      assert xs == init + [last];
      assert KeysOf(xs, key) == KeysOf(init, key) + {key(last)} by {
        forall k | k in KeysOf(xs, key) ensures k in KeysOf(init, key) + {key(last)} {
          var i :| 0 <= i < |xs| && key(xs[i]) == k;
          if i < |xs| - 1 {
            assert xs[i] == init[i];
          }
        }
        forall k | k in KeysOf(init, key) ensures k in KeysOf(xs, key) {
          var i :| 0 <= i < |init| && key(init[i]) == k;
          assert xs[i] == init[i];
        }
      }
      if key(last) !in KeysOf(kept, key) {
        var r := kept + [last];
        assert KeysOf(r, key) == KeysOf(kept, key) + {key(last)} by {
          forall k | k in KeysOf(r, key) ensures k in KeysOf(kept, key) + {key(last)} {
            var i :| 0 <= i < |r| && key(r[i]) == k;
            if i < |kept| {
              assert r[i] == kept[i];
            }
          }
          forall k | k in KeysOf(kept, key) ensures k in KeysOf(r, key) {
            var i :| 0 <= i < |kept| && key(kept[i]) == k;
            assert r[i] == kept[i];
          }
          assert r[|kept|] == last;
        }
        forall i, j | 0 <= i < j < |r| ensures key(r[i]) != key(r[j]) {
          if j == |kept| {
            assert r[i] == kept[i];
            assert key(kept[i]) in KeysOf(kept, key);
          } else {
            assert r[i] == kept[i] && r[j] == kept[j];
          }
        }
      }
    }
  }

  /** De-duplication is exactly the first occurrences, in input order. */
  lemma {:induction false} DedupeFirst<T>(xs: seq<T>, key: T -> string)
    ensures DedupeBy(xs, key) == FirstOccurrences(xs, key, |xs|)
  {
    DedupePrefix(xs, key, |xs|);
    assert xs[..|xs|] == xs;
  }

  lemma {:induction false} DedupePrefix<T>(xs: seq<T>, key: T -> string, n: nat)
    requires n <= |xs|
    ensures DedupeBy(xs[..n], key) == FirstOccurrences(xs, key, n)
  {
    if n > 0 {
      DedupePrefix(xs, key, n - 1);
      var p := xs[..n];
      assert p[..|p| - 1] == xs[..n - 1];
      assert p[|p| - 1] == xs[n - 1];
      DedupeKeys(xs[..n - 1], key);
      var k := key(xs[n - 1]);
      if k in KeysOf(xs[..n - 1], key) {
        var i :| 0 <= i < n - 1 && key(xs[..n - 1][i]) == k;
        assert key(xs[i]) == k;
      } else {
        forall i | 0 <= i < n - 1 ensures key(xs[i]) != k {
          assert xs[..n - 1][i] == xs[i];
        }
      }
    }
  }

  // ---------------------------------------------------------------- analyzeProfile

  datatype FitScore = FitScore(role: string, score: int)

  function Score(f: FitScore): int { f.score }

  /** `Math.floor(Math.random() * 100)` for a draw in [0, 1). */
  function ScoreOf(draw: real): (s: int)
    requires 0.0 <= draw < 1.0
    ensures 0 <= s <= 99
  {
    (draw * 100.0).Floor
  }

  predicate ValidDraws(draws: seq<real>) {
    forall k :: 0 <= k < |draws| ==> 0.0 <= draws[k] < 1.0
  }

  /** One score per selected role, in selection order, labelled with the role. */
  function FitScores(roles: seq<string>, draws: seq<real>): (fs: seq<FitScore>)
    requires |draws| == |roles| && ValidDraws(draws)
    ensures |fs| == |roles|
    ensures forall k :: 0 <= k < |roles| ==> fs[k].role == roles[k] && 0 <= fs[k].score <= 99
  {
    seq(|roles|, k requires 0 <= k < |roles| => FitScore(roles[k], ScoreOf(draws[k])))
  }

  function High(fs: seq<FitScore>): (r: seq<FitScore>)
    ensures forall x :: x in r <==> x in fs && x.score > 70
    ensures (forall x :: x in fs ==> x.score <= 70) ==> r == []
  {
    if fs == [] then []
    else (if fs[0].score > 70 then [fs[0]] else []) + High(fs[1..])
  }

  lemma {:induction false} HighSorted(fs: seq<FitScore>)
    requires Sorting.SortedDesc(fs, Score)
    ensures Sorting.SortedDesc(High(fs), Score)
  {
    if fs != [] {
      var rest := fs[1..];
      assert Sorting.SortedDesc(rest, Score) by {
        forall i, j | 0 <= i < j < |rest| ensures Score(rest[i]) >= Score(rest[j]) {
          assert rest[i] == fs[i + 1] && rest[j] == fs[j + 1];
        }
      }
      HighSorted(rest);
      if fs[0].score > 70 {
        HeadFirst(fs[0], High(rest), rest);
      }
    }
  }

  /** An element no smaller than everything in `rest` stays sorted in front of any sorted
      selection from `rest`. */
  lemma HeadFirst(x: FitScore, h: seq<FitScore>, rest: seq<FitScore>)
    requires Sorting.SortedDesc([x] + rest, Score) && Sorting.SortedDesc(h, Score)
    requires forall y :: y in h ==> y in rest
    ensures Sorting.SortedDesc([x] + h, Score)
  {
    var r := [x] + h;
    forall i, j | 0 <= i < j < |r| ensures Score(r[i]) >= Score(r[j]) {
      if i == 0 {
        assert r[j] == h[j - 1];
        assert h[j - 1] in rest;
        var m :| 0 <= m < |rest| && rest[m] == h[j - 1];
        assert ([x] + rest)[0] == x && ([x] + rest)[m + 1] == rest[m];
      } else {
        assert r[i] == h[i - 1] && r[j] == h[j - 1];
      }
    }
  }

  function Labels(fs: seq<FitScore>): (ls: seq<Option<string>>)
    ensures |ls| == |fs| && forall k :: 0 <= k < |fs| ==> ls[k] == Some(fs[k].role)
  {
    seq(|fs|, k requires 0 <= k < |fs| => Some(fs[k].role))
  }

  /** The labels scoring above 70, best first; otherwise the best one or two
      (`sortedScores[0]?.role` is undefined when no role was selected). */
  function Recommended(fs: seq<FitScore>): seq<Option<string>> {
    var sorted := Sorting.SortDesc(fs, Score);
    var high := High(sorted);
    if high != [] then Labels(high)
    else if |sorted| == 0 then [None]
    else if |sorted| == 1 then [Some(sorted[0].role)]
    else [Some(sorted[0].role), Some(sorted[1].role)]
  }

  lemma SortedMembers(fs: seq<FitScore>)
    ensures Sorting.SortedDesc(Sorting.SortDesc(fs, Score), Score)
    ensures forall x :: x in Sorting.SortDesc(fs, Score) <==> x in fs
  {
    Sorting.SortDescCorrect(fs, Score);
    var sorted := Sorting.SortDesc(fs, Score);
    forall x ensures x in sorted <==> x in fs {
      assert x in sorted <==> x in multiset(sorted);
    }
  }

  /** When some role scores above 70, the recommendations are exactly those roles, in
      non-increasing score order. */
  lemma RecommendedHigh(fs: seq<FitScore>)
    requires exists x :: x in fs && x.score > 70
    ensures var high := High(Sorting.SortDesc(fs, Score));
            Recommended(fs) == Labels(high) && Sorting.SortedDesc(high, Score)
            && forall x :: x in high <==> x in fs && x.score > 70
  {
    SortedMembers(fs);
    var sorted := Sorting.SortDesc(fs, Score);
    HighSorted(sorted);
    var x :| x in fs && x.score > 70;
    assert x in High(sorted);
  }

  /** Otherwise they are the best one or two roles: the first scores highest, the second
      highest among all the other selected roles. */
  lemma RecommendedFallback(fs: seq<FitScore>)
    requires forall x :: x in fs ==> x.score <= 70
    ensures fs == [] ==> Recommended(fs) == [None]
    ensures fs != [] ==>
              |Recommended(fs)| == (if |fs| == 1 then 1 else 2)
              && exists top :: top in fs && Recommended(fs)[0] == Some(top.role)
                               && forall x :: x in fs ==> x.score <= top.score
    ensures |fs| >= 2 ==>
              exists i, j :: Sorting.BestTwo(fs, Score, i, j) && Recommended(fs) == [Some(fs[i].role), Some(fs[j].role)]
  {
    if |fs| >= 2 {
      FallbackTopTwo(fs);
    }
    SortedMembers(fs);
    var sorted := Sorting.SortDesc(fs, Score);
    if fs != [] {
      var top := sorted[0];
      forall x | x in fs ensures x.score <= top.score {
        var i :| 0 <= i < |sorted| && sorted[i] == x;
        if i > 0 {
          assert Score(sorted[0]) >= Score(sorted[i]);
        }
      }
      assert top in fs;
    }
  }

  lemma FallbackTopTwo(fs: seq<FitScore>)
    requires |fs| >= 2 && forall x :: x in fs ==> x.score <= 70
    ensures exists i, j :: Sorting.BestTwo(fs, Score, i, j) && Recommended(fs) == [Some(fs[i].role), Some(fs[j].role)]
  {
    SortedMembers(fs);
    var sorted := Sorting.SortDesc(fs, Score);
    assert High(sorted) == [] by {
      forall x | x in sorted ensures x.score <= 70 { assert x in fs; }
    }
    assert Recommended(fs) == [Some(sorted[0].role), Some(sorted[1].role)];
    Sorting.SortDescTopTwo(fs, Score);
    var i, j :| Sorting.BestTwo(fs, Score, i, j) && sorted[0] == fs[i] && sorted[1] == fs[j];
    assert Recommended(fs) == [Some(fs[i].role), Some(fs[j].role)];
  }

  /** The roles whose missing-skill lists the service knows. */
  const MissingSkillsMap: map<string, seq<string>> := map[
    "Software Engineer" := ["Docker", "Kubernetes", "CI/CD"],
    "Data Analyst" := ["Tableau", "Power BI", "R"],
    "Data Scientist" := ["TensorFlow", "PyTorch", "NLP"],
    "Business Analyst" := ["JIRA", "Agile Methodologies", "Requirement Gathering"],
    "Product Manager" := ["User Research", "A/B Testing", "Product Roadmapping"],
    "UX Designer" := ["Figma", "User Testing", "Wireframing"],
    "Frontend Developer" := ["React", "Vue.js", "TypeScript"],
    "Backend Developer" := ["Node.js", "Django", "Ruby on Rails"],
    "Full Stack Developer" := ["GraphQL", "MongoDB", "AWS"],
    "DevOps Engineer" := ["Terraform", "Jenkins", "AWS"],
    "Cloud Architect" := ["Azure", "GCP", "Serverless"],
    "Machine Learning Engineer" := ["Scikit-learn", "Deep Learning", "Feature Engineering"],
    "AI Researcher" := ["Research Methodology", "Academic Writing", "Algorithm Design"],
    "Cybersecurity Analyst" := ["Penetration Testing", "Security Frameworks", "Threat Analysis"],
    "Network Engineer" := ["Cisco", "Network Protocols", "Firewall Configuration"],
    "Database Administrator" := ["PostgreSQL", "MongoDB", "Database Optimization"],
    "Project Manager" := ["Agile", "Scrum", "Risk Management"],
    "QA Engineer" := ["Selenium", "Test Automation", "Performance Testing"],
    "Technical Writer" := ["API Documentation", "Technical Editing", "Information Architecture"],
    "Systems Analyst" := ["Business Process Modeling", "Requirements Analysis", "System Design"]
  ]

  function RoleSkills(role: string): seq<string> {
    if role in MissingSkillsMap then MissingSkillsMap[role] else []
  }

  /** The role lists concatenated in selection order. */
  function Collected(roles: seq<string>): seq<string> {
    if roles == [] then [] else Collected(roles[..|roles| - 1]) + RoleSkills(roles[|roles| - 1])
  }

  lemma {:induction false} CollectedMembers(roles: seq<string>, s: string)
    ensures s in Collected(roles) <==> exists k :: 0 <= k < |roles| && s in RoleSkills(roles[k])
  {
    if roles != [] {
      var init := roles[..|roles| - 1];
      CollectedMembers(init, s);
      if s in Collected(init) {
        var k :| 0 <= k < |init| && s in RoleSkills(init[k]);
        assert roles[k] == init[k];
      }
      if exists k :: 0 <= k < |roles| && s in RoleSkills(roles[k]) {
        var k :| 0 <= k < |roles| && s in RoleSkills(roles[k]);
        if k < |roles| - 1 {
          assert roles[k] == init[k];
        }
      }
    }
  }

  function Identity(s: string): string { s }

  function Without(xs: seq<string>, drop: seq<string>): (r: seq<string>)
    ensures forall s :: s in r <==> s in xs && s !in drop
    ensures (forall i, j :: 0 <= i < j < |xs| ==> xs[i] != xs[j]) ==>
              forall i, j :: 0 <= i < j < |r| ==> r[i] != r[j]
  {
    if xs == [] then [] else (if xs[0] in drop then [] else [xs[0]]) + Without(xs[1..], drop)
  }

  /** Names of skills at Advanced or Intermediate level, in skill order. */
  function Matched(skills: seq<Records.RawSkill>): (r: seq<string>)
    ensures forall n :: n in r <==> exists k :: 0 <= k < |skills| && skills[k].name == n
                                       && skills[k].level in {"Advanced", "Intermediate"}
  {
    if skills == [] then []
    else
      (if skills[0].level == "Advanced" || skills[0].level == "Intermediate" then [skills[0].name] else [])
      + Matched(skills[1..])
  }

  function Missing(roles: seq<string>, matched: seq<string>): seq<string> {
    Without(DedupeBy(Collected(roles), Identity), matched)
  }

  /** Missing skills hold no duplicates, share nothing with the matched skills, and are the
      skills of the selected roles not matched. */
  lemma MissingRule(roles: seq<string>, matched: seq<string>)
    ensures var m := Missing(roles, matched);
            (forall i, j :: 0 <= i < j < |m| ==> m[i] != m[j])
            && (forall s :: s in m <==> s !in matched && exists k :: 0 <= k < |roles| && s in RoleSkills(roles[k]))
  {
    var d := DedupeBy(Collected(roles), Identity);
    DedupeKeys(Collected(roles), Identity);
    forall i, j | 0 <= i < j < |d| ensures d[i] != d[j] {
      assert Identity(d[i]) != Identity(d[j]);
    }
    forall s ensures s in d <==> s in Collected(roles) {
      if s in d {
        var i :| 0 <= i < |d| && d[i] == s;
        assert Identity(d[i]) in KeysOf(d, Identity);
        var j :| 0 <= j < |Collected(roles)| && Identity(Collected(roles)[j]) == s;
      }
      if s in Collected(roles) {
        var j :| 0 <= j < |Collected(roles)| && Collected(roles)[j] == s;
        assert Identity(Collected(roles)[j]) in KeysOf(Collected(roles), Identity);
        var i :| 0 <= i < |d| && Identity(d[i]) == s;
      }
    }
    forall s ensures s in Missing(roles, matched) <==> s !in matched && exists k :: 0 <= k < |roles| && s in RoleSkills(roles[k]) {
      CollectedMembers(roles, s);
    }
  }

  datatype Profile = Profile(studentName: string, fitScores: seq<FitScore>, recommendedRoles: seq<Option<string>>,
                             matchedSkills: seq<string>, missingSkills: seq<string>)

  /** `csvData.data[0]?.Name || 'Student'`. */
  function StudentName(rows: seq<Records.Row>): string {
    if rows == [] then "Student" else Records.FirstTruthy(rows[0], ["Name"], "Student")
  }

  /** The skills of the first row (none when there are no rows). */
  function ProfileSkills(rows: seq<Records.Row>): seq<Records.RawSkill> {
    if rows == [] then [] else Records.SkillsUpTo(rows[0], 5)
  }

  function Analysis(rows: seq<Records.Row>, roles: seq<string>, draws: seq<real>): Profile
    requires |draws| == |roles| && ValidDraws(draws)
  {
    var fs := FitScores(roles, draws);
    var matched := Matched(ProfileSkills(rows));
    Profile(StudentName(rows), fs, Recommended(fs), matched, Missing(roles, matched))
  }

  /** `analyzeProfile`; `missingSkills` grows role by role before it is de-duplicated and
      filtered. */
  method AnalyzeProfile(rows: seq<Records.Row>, roles: seq<string>, draws: seq<real>) returns (p: Profile)
    requires |draws| == |roles| && ValidDraws(draws)
    ensures p == Analysis(rows, roles, draws)
  {
    var studentName := StudentName(rows);
    var fitScores := FitScores(roles, draws);
    var recommended := Recommended(fitScores);
    var skills: seq<Records.RawSkill> := [];
    if rows != [] {
      skills := Records.ExtractSkills(rows[0]);
    }
    var matched := Matched(skills);
    var missing: seq<string> := [];
    var i := 0;
    while i < |roles|
      invariant 0 <= i <= |roles|
      invariant missing == Collected(roles[..i])
    {
      assert roles[..i + 1][..i] == roles[..i];
      if roles[i] in MissingSkillsMap {
        missing := missing + MissingSkillsMap[roles[i]];
      }
      i := i + 1;
    }
    assert roles[..i] == roles;
    missing := DedupeBy(missing, Identity);
    missing := Without(missing, matched);
    return Profile(studentName, fitScores, recommended, matched, missing);
  }

  /** Matched skills come from the first row's Advanced and Intermediate skills only, and
      at most five of them. */
  lemma MatchedRule(rows: seq<Records.Row>, roles: seq<string>, draws: seq<real>)
    requires |draws| == |roles| && ValidDraws(draws) && rows != []
    ensures var p := Analysis(rows, roles, draws);
            |p.matchedSkills| <= 5
            && forall n :: n in p.matchedSkills <==>
                 exists s :: s in Records.SkillsUpTo(rows[0], 5) && s.name == n && s.level in {"Advanced", "Intermediate"}
  {
    Records.SkillsUpToBound(rows[0], 5);
    MatchedBound(Records.SkillsUpTo(rows[0], 5));
  }

  lemma {:induction false} MatchedBound(skills: seq<Records.RawSkill>)
    ensures |Matched(skills)| <= |skills|
  {
    if skills != [] { MatchedBound(skills[1..]); }
  }

  // ---------------------------------------------------------------- generateGdTopics

  /** A discussion topic; only the title matters to the selection (descriptions and key
      points are not modelled). */
  datatype Topic = Topic(title: string)

  function Title(t: Topic): string { t.title }

  const DefaultTopics: seq<Topic> := [Topic("Remote Work: The New Normal?"), Topic("Generalist vs. Specialist Career Paths"),
                                      Topic("Ethical Considerations in Technology")]

  const TopicsByRole: map<string, seq<Topic>> := map[
    "Software Engineer" := [Topic("Microservices vs. Monolithic Architecture"), Topic("Code Quality vs. Delivery Speed")],
    "Data Analyst" := [Topic("Big Data: Opportunity or Overrated?"), Topic("Automated Analytics vs. Human Insight")],
    "default" := DefaultTopics
  ]

  /** `topicsByRole[role] || topicsByRole['default']`: never empty. */
  function RoleTopics(role: string): (ts: seq<Topic>)
    ensures 2 <= |ts| <= 3
  {
    if role in TopicsByRole then TopicsByRole[role] else DefaultTopics
  }

  /** `Math.floor(Math.random() * 2) + 1` for a draw in [0, 1). */
  function TopicCount(draw: real): (n: int)
    requires 0.0 <= draw < 1.0
    ensures 1 <= n <= 2
  {
    (draw * 2.0).Floor + 1
  }

  function Picked(role: string, draw: real): (ts: seq<Topic>)
    requires 0.0 <= draw < 1.0
    ensures |ts| == TopicCount(draw) && ts == RoleTopics(role)[..|ts|]
  {
    RoleTopics(role)[..TopicCount(draw)]
  }

  function Generated(roles: seq<string>, draws: seq<real>): seq<Topic>
    requires |draws| == |roles| && ValidDraws(draws)
  {
    if roles == [] then []
    else Generated(roles[..|roles| - 1], draws[..|roles| - 1]) + Picked(roles[|roles| - 1], draws[|roles| - 1])
  }

  function GdTopics(roles: seq<string>, draws: seq<real>): seq<Topic>
    requires |draws| == |roles| && ValidDraws(draws)
  {
    var generated := Generated(roles, draws);
    DedupeBy(if generated == [] then DefaultTopics else generated, Title)
  }

  /** Each role contributes one or two topics, so nothing is collected only when no role
      was selected. */
  lemma {:induction false} GeneratedCount(roles: seq<string>, draws: seq<real>)
    requires |draws| == |roles| && ValidDraws(draws)
    ensures |roles| <= |Generated(roles, draws)| <= 2 * |roles|
  {
    if roles != [] {
      GeneratedCount(roles[..|roles| - 1], draws[..|roles| - 1]);
    }
  }

  /** The topics' titles are unique, each the first occurrence among those collected, in
      order; the default topics appear exactly when no role was selected. */
  lemma GdTopicsRule(roles: seq<string>, draws: seq<real>)
    requires |draws| == |roles| && ValidDraws(draws)
    ensures var ts := GdTopics(roles, draws);
            var source := if roles == [] then DefaultTopics else Generated(roles, draws);
            ts == FirstOccurrences(source, Title, |source|)
            && (forall i, j :: 0 <= i < j < |ts| ==> ts[i].title != ts[j].title)
            && KeysOf(ts, Title) == KeysOf(source, Title)
  {
    GeneratedCount(roles, draws);
    var generated := Generated(roles, draws);
    var source := if generated == [] then DefaultTopics else generated;
    DedupeFirst(source, Title);
    DedupeKeys(source, Title);
  }

  /** The push loop of `generateGdTopics`: at most `numTopics` of each role's list. */
  method CollectTopics(roles: seq<string>, draws: seq<real>) returns (generated: seq<Topic>)
    requires |draws| == |roles| && ValidDraws(draws)
    ensures generated == Generated(roles, draws)
  {
    generated := [];
    var r := 0;
    while r < |roles|
      invariant 0 <= r <= |roles|
      invariant generated == Generated(roles[..r], draws[..r])
    {
      assert roles[..r + 1][..r] == roles[..r] && draws[..r + 1][..r] == draws[..r];
      var roleTopics := RoleTopics(roles[r]);
      var numTopics := TopicCount(draws[r]);
      var before := generated;
      var i := 0;
      while i < numTopics && i < |roleTopics|
        invariant 0 <= i <= numTopics
        invariant generated == before + roleTopics[..i]
      {
        generated := generated + [roleTopics[i]];
        i := i + 1;
        assert roleTopics[..i] == roleTopics[..i - 1] + [roleTopics[i - 1]];
      }
      r := r + 1;
    }
    assert roles[..r] == roles && draws[..r] == draws;
  }

  /** The title-set loop: a topic is kept when its title has not been seen. */
  method UniqueTopics(generated: seq<Topic>) returns (unique: seq<Topic>)
    ensures unique == DedupeBy(generated, Title)
  {
    unique := [];
    var titles: set<string> := {};
    var k := 0;
    while k < |generated|
      invariant 0 <= k <= |generated|
      invariant unique == DedupeBy(generated[..k], Title)
      invariant titles == KeysOf(unique, Title)
    {
      assert generated[..k + 1][..k] == generated[..k];
      var topic := generated[k];
      if topic.title !in titles {
        KeysOfAppend(unique, topic, Title);
        titles := titles + {topic.title};
        unique := unique + [topic];
      }
      k := k + 1;
    }
    assert generated[..k] == generated;
  }

  lemma KeysOfAppend<T>(xs: seq<T>, x: T, key: T -> string)
    ensures KeysOf(xs + [x], key) == KeysOf(xs, key) + {key(x)}
  {
    var u := xs + [x];
    forall t | t in KeysOf(u, key) ensures t in KeysOf(xs, key) + {key(x)} {
      var j :| 0 <= j < |u| && key(u[j]) == t;
      if j < |xs| {
        assert u[j] == xs[j];
      }
    }
    forall t | t in KeysOf(xs, key) ensures t in KeysOf(u, key) {
      var j :| 0 <= j < |xs| && key(xs[j]) == t;
      assert u[j] == xs[j];
    }
    assert u[|xs|] == x;
  }

  /** `generateGdTopics`: the collected topics, or the default list when none were collected,
      without repeated titles. */
  method GenerateGdTopics(roles: seq<string>, draws: seq<real>) returns (unique: seq<Topic>)
    requires |draws| == |roles| && ValidDraws(draws)
    ensures unique == GdTopics(roles, draws)
  {
    var generated := CollectTopics(roles, draws);
    if |generated| == 0 {
      generated := DefaultTopics;
    }
    unique := UniqueTopics(generated);
  }
}
