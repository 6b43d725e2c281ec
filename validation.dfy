/** The field-level validation script: four independent row masks (salary
    range, experience level, common skills, location format), the rows each
    mask rejects, in table order, and the four counts of the summary. */
module Validation {
  import opened Strings
  import opened Seqs
  import opened Frame

  // ---------------------------------------------------------------------
  // Constants

  const MinSalary: int := 50000
  const MaxSalary: int := 250000

  const ValidExperienceLevels: seq<string> := ["Entry-Level", "Mid-Level", "Senior"]

  const CommonSkills: seq<string> := ["DevOps", "AWS", "Azure", "Kubernetes", "GCP", "Machine Learning"]

  // ---------------------------------------------------------------------
  // The four masks

  /** `(50000 <= salary) & (salary <= 250000)`: both bounds inclusive. */
  predicate SalaryValid(salary: int) {
    MinSalary <= salary <= MaxSalary
  }

  /** `isin(valid_experience_levels)`: exact, case-sensitive membership. */
  predicate ExperienceValid(level: string) {
    level in ValidExperienceLevels
  }

  /** Is some common skill one of the first `n` in the list a substring of `skills`? */
  predicate SomeCommonSkillIn(skills: string, n: nat)
    requires n <= |CommonSkills|
  {
    n > 0 && (SomeCommonSkillIn(skills, n - 1) || Contains(skills, CommonSkills[n - 1]))
  }

  /** `any(skill in x for skill in common_skills)`: a case-sensitive substring
      test of the raw cell against every common skill. */
  predicate SkillsValid(skills: string) {
    SomeCommonSkillIn(skills, |CommonSkills|)
  }

  lemma {:induction false} SomeCommonSkillInIff(skills: string, n: nat)
    requires n <= |CommonSkills|
    ensures SomeCommonSkillIn(skills, n) <==> exists k :: 0 <= k < n && Contains(skills, CommonSkills[k])
  {
    if n > 0 {
      SomeCommonSkillInIff(skills, n - 1);
    }
  }

  /** The skills rule accepts a cell exactly when one of the six common skills
      occurs in it. */
  lemma SkillsValidIff(skills: string)
    ensures SkillsValid(skills) <==> exists k :: 0 <= k < |CommonSkills| && Contains(skills, CommonSkills[k])
  {
    SomeCommonSkillInIff(skills, |CommonSkills|);
  }

  /** A character of the class `[A-Za-z\s]`. */
  predicate IsCityChar(c: char) {
    IsAsciiLetter(c) || IsSpace(c)
  }

  /** A recognizer for `^[A-Za-z\s]+,\s[A-Z]{2}$`. Since the city class has no
      comma, the last four characters must be the comma, the whitespace and
      the two capitals, and everything before them is the city run. */
  predicate LocationValid(s: string) {
    |s| >= 5
    && (forall k :: 0 <= k < |s| - 4 ==> IsCityChar(s[k]))
    && s[|s| - 4] == ','
    && IsSpace(s[|s| - 3])
    && IsUpper(s[|s| - 2])
    && IsUpper(s[|s| - 1])
  }

  /** The pattern read as a concatenation: a non-empty city run, a comma, one
      whitespace character and a two-letter upper-case code. */
  ghost predicate MatchesLocationPattern(s: string) {
    exists city: string, w: char, code: string ::
      && s == city + [','] + [w] + code
      && |city| >= 1 && (forall k :: 0 <= k < |city| ==> IsCityChar(city[k]))
      && IsSpace(w)
      && |code| == 2 && IsUpper(code[0]) && IsUpper(code[1])
  }

  lemma LocationPieces(s: string, city: string, w: char, code: string)
    requires s == city + [','] + [w] + code && |code| == 2
    ensures |s| == |city| + 4 && s[..|s| - 4] == city
    ensures s[|s| - 4] == ',' && s[|s| - 3] == w && s[|s| - 2] == code[0] && s[|s| - 1] == code[1]
  {
    assert s == city + ([',', w] + code);
  }

  lemma LocationValidMatches(s: string)
    requires LocationValid(s)
    ensures MatchesLocationPattern(s)
  {
    var city, w, code := s[..|s| - 4], s[|s| - 3], s[|s| - 2..];
    assert s == city + [','] + [w] + code by {
      assert s[|s| - 4..] == [','] + [w] + code;
      assert s == city + s[|s| - 4..];
    }
    assert forall k :: 0 <= k < |city| ==> city[k] == s[k];
  }

  lemma MatchesLocationValid(s: string)
    requires MatchesLocationPattern(s)
    ensures LocationValid(s)
  {
    var city: string, w: char, code: string :|
      && s == city + [','] + [w] + code
      && |city| >= 1 && (forall k :: 0 <= k < |city| ==> IsCityChar(city[k]))
      && IsSpace(w)
      && |code| == 2 && IsUpper(code[0]) && IsUpper(code[1]);
    LocationPieces(s, city, w, code);
    assert forall k :: 0 <= k < |s| - 4 ==> s[k] == city[k];
  }

  /** The recognizer accepts exactly the strings of the pattern. */
  lemma LocationValidIff(s: string)
    ensures LocationValid(s) <==> MatchesLocationPattern(s)
  {
    if LocationValid(s) {
      LocationValidMatches(s);
    }
    if MatchesLocationPattern(s) {
      MatchesLocationValid(s);
    }
  }

  /** The city class excludes the comma, so a valid location has exactly one. */
  lemma LocationOneComma(s: string)
    requires LocationValid(s)
    ensures multiset(s)[','] == 1
  {
    var city, tail := s[..|s| - 4], s[|s| - 4..];
    assert s == city + tail;
    assert tail == [','] + [s[|s| - 3]] + [s[|s| - 2]] + [s[|s| - 1]];
    assert ',' !in city by {
      assert forall k :: 0 <= k < |city| ==> city[k] == s[k] && IsCityChar(s[k]);
    }
    assert multiset(city)[','] == 0;
  }

  // ---------------------------------------------------------------------
  // The rows each rule rejects

  /** `df[~valid_salary_range]`. */
  function InvalidSalaries(rows: seq<Row>): (r: seq<Row>)
    ensures IsSubseq(r, rows)
    ensures forall x :: x in r <==> x in rows && !SalaryValid(x.salary)
    ensures forall x {:trigger multiset(r)[x]} ::
      multiset(r)[x] == if SalaryValid(x.salary) then 0 else multiset(rows)[x]
  {
    var bad := (x: Row) => !SalaryValid(x.salary);
    FilterSpec(rows, bad);
    FilterIsSubseq(rows, bad);
    Filter(rows, bad)
  }

  /** `df[~df['Experience_Level'].isin(valid_experience_levels)]`. */
  function InvalidExperience(rows: seq<Row>): (r: seq<Row>)
    ensures IsSubseq(r, rows)
    ensures forall x :: x in r <==> x in rows && !ExperienceValid(x.experience)
    ensures forall x {:trigger multiset(r)[x]} ::
      multiset(r)[x] == if ExperienceValid(x.experience) then 0 else multiset(rows)[x]
  {
    var bad := (x: Row) => !ExperienceValid(x.experience);
    FilterSpec(rows, bad);
    FilterIsSubseq(rows, bad);
    Filter(rows, bad)
  }

  /** `df[~df['Skills'].apply(lambda x: any(skill in x ...))]`. */
  function InvalidSkills(rows: seq<Row>): (r: seq<Row>)
    ensures IsSubseq(r, rows)
    ensures forall x :: x in r <==> x in rows && !SkillsValid(x.skills)
    ensures forall x {:trigger multiset(r)[x]} ::
      multiset(r)[x] == if SkillsValid(x.skills) then 0 else multiset(rows)[x]
  {
    var bad := (x: Row) => !SkillsValid(x.skills);
    FilterSpec(rows, bad);
    FilterIsSubseq(rows, bad);
    Filter(rows, bad)
  }

  /** `df[~valid_location_format]`. */
  function InvalidLocations(rows: seq<Row>): (r: seq<Row>)
    ensures IsSubseq(r, rows)
    ensures forall x :: x in r <==> x in rows && !LocationValid(x.location)
    ensures forall x {:trigger multiset(r)[x]} ::
      multiset(r)[x] == if LocationValid(x.location) then 0 else multiset(rows)[x]
  {
    var bad := (x: Row) => !LocationValid(x.location);
    FilterSpec(rows, bad);
    FilterIsSubseq(rows, bad);
    Filter(rows, bad)
  }

  /** The rows the salary mask accepts. */
  function ValidSalaries(rows: seq<Row>): seq<Row> {
    Filter(rows, (x: Row) => SalaryValid(x.salary))
  }

  /** The salary mask and its negation split the table: every row is either
      within range or among the invalid salaries, and the counts add up. */
  lemma SalaryPartition(rows: seq<Row>)
    ensures |ValidSalaries(rows)| + |InvalidSalaries(rows)| == |rows|
    ensures forall x :: x in rows ==> (x in ValidSalaries(rows) <==> x !in InvalidSalaries(rows))
  {
    var good := (x: Row) => SalaryValid(x.salary);
    var bad := (x: Row) => !SalaryValid(x.salary);
    FilterPartition(rows, good, bad);
    FilterSpec(rows, good);
  }

  // ---------------------------------------------------------------------
  // Summary

  /** The four counts the script prints under "Data Validation Summary". */
  datatype Summary = Summary(salaries: nat, experience: nat, skills: nat, locations: nat)

  /** Each count is the length of its own rule's subset; the rules do not
      interact, so a row failing several rules is counted once by each. */
  function Summarize(rows: seq<Row>): (r: Summary)
    ensures r.salaries == |InvalidSalaries(rows)| && r.experience == |InvalidExperience(rows)|
    ensures r.skills == |InvalidSkills(rows)| && r.locations == |InvalidLocations(rows)|
    ensures r.salaries <= |rows| && r.experience <= |rows| && r.skills <= |rows| && r.locations <= |rows|
    ensures r.salaries == 0 <==> forall x :: x in rows ==> SalaryValid(x.salary)
    ensures r.experience == 0 <==> forall x :: x in rows ==> ExperienceValid(x.experience)
    ensures r.skills == 0 <==> forall x :: x in rows ==> SkillsValid(x.skills)
    ensures r.locations == 0 <==> forall x :: x in rows ==> LocationValid(x.location)
  {
    var s, e, k, l := InvalidSalaries(rows), InvalidExperience(rows), InvalidSkills(rows), InvalidLocations(rows);
    assert s == [] <==> forall x :: x in rows ==> SalaryValid(x.salary) by {
      if s != [] { assert s[0] in s; }
    }
    assert e == [] <==> forall x :: x in rows ==> ExperienceValid(x.experience) by {
      if e != [] { assert e[0] in e; }
    }
    assert k == [] <==> forall x :: x in rows ==> SkillsValid(x.skills) by {
      if k != [] { assert k[0] in k; }
    }
    assert l == [] <==> forall x :: x in rows ==> LocationValid(x.location) by {
      if l != [] { assert l[0] in l; }
    }
    Summary(|s|, |e|, |k|, |l|)
  }

  /** A table whose only out-of-range salary is at row `i` reports exactly
      that row, and a salary count of one. */
  lemma SingleSalaryOutlier(rows: seq<Row>, i: int)
    requires 0 <= i < |rows| && !SalaryValid(rows[i].salary)
    requires forall j :: 0 <= j < |rows| && j != i ==> SalaryValid(rows[j].salary)
    ensures InvalidSalaries(rows) == [rows[i]]
    ensures Summarize(rows).salaries == 1
  {
    var r := InvalidSalaries(rows);
    var o := rows[i];
    SplitAt(rows, i);
    var pre, post := rows[..i], rows[i + 1..];
    assert o !in pre && o !in post by {
      assert forall j :: 0 <= j < |pre| ==> pre[j] == rows[j];
      assert forall j :: 0 <= j < |post| ==> post[j] == rows[i + 1 + j];
    }
    assert multiset(rows)[o] == 1;
    forall x ensures multiset(r)[x] == multiset{o}[x] {
      if x != o && x in rows {
        var j :| 0 <= j < |rows| && rows[j] == x;
        assert j != i;
      }
    }
    assert multiset(r) == multiset{o};
    assert |r| == 1 by {
      assert |multiset(r)| == |r|;
    }
    assert r[0] in multiset(r);
  }

  /** The rules are independent: a row that breaks all four appears in all
      four subsets, and each count sees it. */
  lemma RulesIndependent()
    ensures var row := Row("Cloud Architect", 10, "Expert", "", "", 0);
      var s := Summarize([row]);
      && row in InvalidSalaries([row]) && row in InvalidExperience([row])
      && row in InvalidSkills([row]) && row in InvalidLocations([row])
      && s == Summary(1, 1, 1, 1)
  {
    var row := Row("Cloud Architect", 10, "Expert", "", "", 0);
    SkillsValidIff("");
    forall k | 0 <= k < |CommonSkills| ensures !Contains("", CommonSkills[k]) {
      ShorterLacks("", CommonSkills[k]);
    }
    assert !SkillsValid(row.skills);
    assert !ExperienceValid(row.experience);
  }

  // ---------------------------------------------------------------------
  // Examples

  lemma SkillsExamples()
    ensures SkillsValid("AWSome")
    ensures !SkillsValid("aws")
  {
    SkillsValidIff("AWSome");
    assert Contains("AWSome", CommonSkills[1]);
    SkillsValidIff("aws");
    forall k | 0 <= k < |CommonSkills| ensures !Contains("aws", CommonSkills[k]) {
      if k == 1 || k == 4 {
        assert "aws"[..|CommonSkills[k]|][0] != CommonSkills[k][0];
        assert "aws"[1..] == "ws";
        ShorterLacks("ws", CommonSkills[k]);
      } else {
        ShorterLacks("aws", CommonSkills[k]);
      }
    }
  }

  /** A skill that is not the first token still counts. */
  lemma SkillsLaterTokenExample()
    ensures SkillsValid("Python, Machine Learning")
  {
    var t := "Python, Machine Learning";
    assert t == "Python, " + CommonSkills[5];
    ContainsAppended("Python, ", CommonSkills[5]);
    SkillsValidIff(t);
  }

  lemma LocationExamples()
    ensures LocationValid("Austin, TX")
    ensures LocationValid("San Francisco, CA")
    ensures !LocationValid("Austin TX")
    ensures !LocationValid("Austin,TX")
    ensures !LocationValid("Austin, tx")
    ensures !LocationValid("")
  {
  }
}
