/** The client-side list logic of the job-board page: the skill list built
    from the postings, the filter effect, pagination with its clamped
    Previous / Next buttons and page reset, the counting and grouping
    reducers with the top location, and the resume skill matching. The
    page's React state is the class `Dashboard`. */
module JobBoard {
  import opened Strings
  import opened Seqs

  datatype Option<T> = None | Some(value: T)

  /** One posting of the bundled JSON data. `Skills` may be missing, which
      the page handles with optional chaining. */
  datatype Job = Job(
    jobTitle: string,
    company: string,
    location: string,
    salary: int,
    experience: string,
    skills: Option<string>)

  function TitleOf(j: Job): string { j.jobTitle }

  function LocationOf(j: Job): string { j.location }

  // ---------------------------------------------------------------------
  // The skill list

  /** `job.Skills?.split(',').map(s => s.trim()) || []`: the trimmed pieces
      between the commas, none when Skills is missing. */
  function SkillPieces(job: Job): (r: seq<string>)
    ensures job.skills.None? ==> r == []
    ensures job.skills.Some? ==> |r| == Occurrences(job.skills.value, ",") + 1
  {
    match job.skills
    case None => []
    case Some(text) =>
      var parts := Split(text, ",");
      seq(|parts|, i requires 0 <= i < |parts| => Trim(parts[i]))
  }

  /** No piece has whitespace at either end. */
  lemma SkillPiecesTrimmed(job: Job)
    ensures forall t :: t in SkillPieces(job) ==> IsTrimmed(t)
  {
  }

  /** `jobData.flatMap(...)`: the pieces of every job, job after job. */
  function AllPieces(jobs: seq<Job>): seq<string>
  {
    FlatMap(jobs, SkillPieces)
  }

  /** `Array.from(new Set(...))`: each piece once, in first-occurrence order
      (`Seqs.DistinctFirstOccurrenceOrder`). */
  function AllSkills(jobs: seq<Job>): (r: seq<string>)
    ensures NoDup(r)
    ensures forall t :: t in r <==> t in AllPieces(jobs)
  {
    Distinct(AllPieces(jobs))
  }

  lemma PieceSource(job: Job, t: string) returns (i: nat)
    requires t in SkillPieces(job)
    ensures job.skills.Some? && i < |Split(job.skills.value, ",")|
    ensures t == Trim(Split(job.skills.value, ",")[i])
  {
    var pieces := SkillPieces(job);
    var m :| 0 <= m < |pieces| && pieces[m] == t;
    i := m;
  }

  /** Every skill of the list is a trimmed comma-separated piece of the
      Skills text of some job. */
  lemma AllSkillsSource(jobs: seq<Job>, t: string) returns (k: nat, i: nat)
    requires t in AllSkills(jobs)
    ensures k < |jobs| && jobs[k].skills.Some?
    ensures i < |Split(jobs[k].skills.value, ",")| && t == Trim(Split(jobs[k].skills.value, ",")[i])
    ensures IsTrimmed(t)
  {
    k := FlatMapSource(jobs, SkillPieces, t);
    i := PieceSource(jobs[k], t);
  }

  /** Every trimmed piece of every job's Skills is in the list. */
  lemma AllSkillsHas(jobs: seq<Job>, k: int, i: int)
    requires 0 <= k < |jobs| && jobs[k].skills.Some?
    requires 0 <= i < |Split(jobs[k].skills.value, ",")|
    ensures Trim(Split(jobs[k].skills.value, ",")[i]) in AllSkills(jobs)
  {
    assert SkillPieces(jobs[k])[i] in SkillPieces(jobs[k]);
    FlatMapHas(jobs, SkillPieces, k, SkillPieces(jobs[k])[i]);
  }

  function HasSkillsText(j: Job): bool { j.skills.Some? }

  lemma AllPiecesCons(x: Job, jobs: seq<Job>)
    ensures AllPieces([x] + jobs) == SkillPieces(x) + AllPieces(jobs)
  {
    FlatMapCons(x, jobs, SkillPieces);
  }

  /** Jobs without Skills contribute no piece. */
  lemma {:induction false} AllPiecesIgnoresMissing(jobs: seq<Job>)
    ensures AllPieces(Filter(jobs, HasSkillsText)) == AllPieces(jobs)
    decreases |jobs|
  {
    if jobs != [] {
      var x, tail := jobs[0], jobs[1..];
      AllPiecesIgnoresMissing(tail);
      ConsAppend(jobs, []);
      FilterCons(x, tail, HasSkillsText);
      AllPiecesCons(x, tail);
      if HasSkillsText(x) {
        AllPiecesCons(x, Filter(tail, HasSkillsText));
      } else {
        assert SkillPieces(x) == [];
      }
    }
  }

  /** Jobs without Skills contribute nothing to the list. */
  lemma AllSkillsIgnoresMissing(jobs: seq<Job>)
    ensures AllSkills(Filter(jobs, HasSkillsText)) == AllSkills(jobs)
  {
    AllPiecesIgnoresMissing(jobs);
  }

  /** An empty Skills text is the single empty piece, unlike a missing one. */
  lemma EmptySkillsText(j: Job)
    requires j.skills == Some("")
    ensures SkillPieces(j) == [""]
  {
    assert Split("", ",") == [""];
    assert Trim("") == "";
  }

  // ---------------------------------------------------------------------
  // The filter effect

  /** `job.Skills?.toLowerCase().includes(skill.toLowerCase())`; a missing
      Skills never matches. */
  predicate HasSkill(job: Job, skill: string) {
    job.skills.Some? && Contains(ToLower(job.skills.value), ToLower(skill))
  }

  /** `selectedSkills.every(...)`. */
  predicate HasAllSkills(job: Job, skills: seq<string>) {
    forall i :: 0 <= i < |skills| ==> HasSkill(job, skills[i])
  }

  /** The three conditions of the filter effect; an empty location or
      experience does not filter. */
  predicate JobMatches(job: Job, skills: seq<string>, location: string, experience: string) {
    HasAllSkills(job, skills)
    && (location == "" || job.location == location)
    && (experience == "" || job.experience == experience)
  }

  function Matcher(skills: seq<string>, location: string, experience: string): Job -> bool {
    (job: Job) => JobMatches(job, skills, location, experience)
  }

  /** The jobs the page shows for the chosen skills, location and experience. */
  function MatchingJobs(jobs: seq<Job>, skills: seq<string>, location: string, experience: string): (r: seq<Job>)
    ensures IsSubseq(r, jobs)
    ensures forall x :: x in r <==> x in jobs && JobMatches(x, skills, location, experience)
    ensures forall x {:trigger multiset(r)[x]} ::
      multiset(r)[x] == if JobMatches(x, skills, location, experience) then multiset(jobs)[x] else 0
  {
    FilterSpec(jobs, Matcher(skills, location, experience));
    FilterIsSubseq(jobs, Matcher(skills, location, experience));
    Filter(jobs, Matcher(skills, location, experience))
  }

  /** With nothing chosen the page shows every job. */
  lemma NoFilters(jobs: seq<Job>)
    ensures MatchingJobs(jobs, [], "", "") == jobs
  {
    FilterKeepsAll(jobs, Matcher([], "", ""));
  }

  /** The effect body: `data` is narrowed by each filter that is switched on. */
  method ApplyFilters(jobData: seq<Job>, selectedSkills: seq<string>, location: string, experience: string)
    returns (data: seq<Job>)
    ensures data == MatchingJobs(jobData, selectedSkills, location, experience)
  {
    var bySkills := (job: Job) => HasAllSkills(job, selectedSkills);
    data := jobData;
    if |selectedSkills| > 0 {
      data := Filter(data, bySkills);
    } else {
      FilterKeepsAll(jobData, bySkills);
    }
    var byLocation := (job: Job) => job.location == location;
    var upToLocation := (job: Job) => bySkills(job) && (location == "" || byLocation(job));
    if location != "" {
      FilterFuse(jobData, bySkills, byLocation, upToLocation);
      data := Filter(data, byLocation);
    } else {
      FilterExt(jobData, bySkills, upToLocation);
    }
    var byExperience := (job: Job) => job.experience == experience;
    var all := Matcher(selectedSkills, location, experience);
    if experience != "" {
      FilterFuse(jobData, upToLocation, byExperience, all);
      data := Filter(data, byExperience);
    } else {
      FilterExt(jobData, upToLocation, all);
    }
  }

  // ---------------------------------------------------------------------
  // Pagination

  const JobsPerPage: nat := 15

  /** `Math.ceil(n / jobsPerPage)`: the fewest pages that hold `n` jobs. */
  function TotalPages(n: nat): (r: nat)
    ensures r * JobsPerPage >= n
    ensures r > 0 ==> (r - 1) * JobsPerPage < n
  {
    (n + JobsPerPage - 1) / JobsPerPage
  }

  /** `slice((p - 1) * jobsPerPage, p * jobsPerPage)`, with the clamping of
      `Array.prototype.slice` (page 0 would be `slice(-15, 0)`, empty). */
  function PageOf<T>(s: seq<T>, p: nat): (r: seq<T>)
    ensures |r| <= JobsPerPage
    ensures r != [] <==> 1 <= p <= TotalPages(|s|)
    ensures 1 <= p < TotalPages(|s|) ==> |r| == JobsPerPage
    ensures p >= 1 ==> |r| == Max(0, Min(JobsPerPage, |s| - (p - 1) * JobsPerPage))
    ensures p >= 1 ==> forall i :: 0 <= i < |r| ==>
      (p - 1) * JobsPerPage + i < |s| && r[i] == s[(p - 1) * JobsPerPage + i]
  {
    if p == 0 then []
    else s[Min((p - 1) * JobsPerPage, |s|)..Min(p * JobsPerPage, |s|)]
  }

  /** Pages `1..k` one after the other. */
  function Pages<T>(s: seq<T>, k: nat): seq<T> {
    if k == 0 then [] else Pages(s, k - 1) + PageOf(s, k)
  }

  lemma {:induction false} PagesPrefix<T>(s: seq<T>, k: nat)
    ensures Pages(s, k) == s[..Min(k * JobsPerPage, |s|)]
  {
    if k > 0 {
      PagesPrefix(s, k - 1);
      var lo, hi := Min((k - 1) * 15, |s|), Min(k * 15, |s|);
      assert lo <= hi;
      assert PageOf(s, k) == s[lo..hi];
      assert s[..lo] + s[lo..hi] == s[..hi];
    }
  }

  /** The pages `1..totalPages` together are the whole list. */
  lemma PagesCover<T>(s: seq<T>)
    ensures Pages(s, TotalPages(|s|)) == s
  {
    PagesPrefix(s, TotalPages(|s|));
  }

  // ---------------------------------------------------------------------
  // Reducers over an object accumulator. `order` is the order of
  // `Object.entries`: the order in which the keys were first set.

  /** The key of each job, for a key function such as `TitleOf`. */
  function Keys(jobs: seq<Job>, key: Job -> string): (r: seq<string>)
    ensures |r| == |jobs| && forall i :: 0 <= i < |jobs| ==> r[i] == key(jobs[i])
  {
    seq(|jobs|, i requires 0 <= i < |jobs| => key(jobs[i]))
  }

  lemma KeysSnoc(jobs: seq<Job>, key: Job -> string, i: int)
    requires 0 <= i < |jobs|
    ensures Keys(jobs[..i + 1], key) == Keys(jobs[..i], key) + [key(jobs[i])]
  {
  }

  /** The counts of the keys in `order`, added up. */
  function Total(counts: map<string, nat>, order: seq<string>): nat
    decreases |order|
  {
    if order == [] then 0
    else (if order[0] in counts then counts[order[0]] else 0) + Total(counts, order[1..])
  }

  lemma {:induction false} TotalIsSumCounts(counts: map<string, nat>, order: seq<string>, keys: seq<string>)
    requires forall k :: k in order ==> k in counts && counts[k] == multiset(keys)[k]
    ensures Total(counts, order) == SumCounts(keys, order)
    decreases |order|
  {
    if order != [] {
      TotalIsSumCounts(counts, order[1..], keys);
    }
  }

  /** `acc[key] = (acc[key] || 0) + 1` over the jobs: each key with the
      number of jobs that have it; the counts add up to the number of jobs. */
  method CountBy(jobs: seq<Job>, key: Job -> string) returns (order: seq<string>, counts: map<string, nat>)
    ensures order == Distinct(Keys(jobs, key))
    ensures forall k :: k in counts <==> k in Keys(jobs, key)
    ensures forall k :: k in counts <==> k in order
    ensures forall k :: k in counts ==> counts[k] == multiset(Keys(jobs, key))[k]
    ensures Total(counts, order) == |jobs|
  {
    order, counts := [], map[];
    var i := 0;
    while i < |jobs|
      invariant 0 <= i <= |jobs|
      invariant order == Distinct(Keys(jobs[..i], key))
      invariant forall k :: k in counts <==> k in Keys(jobs[..i], key)
      invariant forall k :: k in counts ==> counts[k] == multiset(Keys(jobs[..i], key))[k]
    {
      var k := key(jobs[i]);
      KeysSnoc(jobs, key, i);
      if k !in counts {
        order := order + [k];
      }
      counts := counts[k := (if k in counts then counts[k] else 0) + 1];
      i := i + 1;
    }
    assert jobs[..i] == jobs;
    TotalIsSumCounts(counts, order, Keys(jobs, key));
    DistinctCountsSum(Keys(jobs, key));
  }

  /** The salaries of the jobs whose key is `k`, in job order. */
  function SalariesWith(jobs: seq<Job>, key: Job -> string, k: string): seq<int>
    decreases |jobs|
  {
    if jobs == [] then []
    else
      var last := jobs[|jobs| - 1];
      SalariesWith(jobs[..|jobs| - 1], key, k) + (if key(last) == k then [last.salary] else [])
  }

  /** One salary per job with that key. */
  lemma {:induction false} SalariesWithCount(jobs: seq<Job>, key: Job -> string, k: string)
    ensures |SalariesWith(jobs, key, k)| == multiset(Keys(jobs, key))[k]
    decreases |jobs|
  {
    if jobs != [] {
      var n := |jobs| - 1;
      SalariesWithCount(jobs[..n], key, k);
      assert jobs[..n + 1] == jobs;
      KeysSnoc(jobs, key, n);
    }
  }

  /** The sizes of the groups of the keys in `order`, added up. */
  function GroupTotal(groups: map<string, seq<int>>, order: seq<string>): nat
    decreases |order|
  {
    if order == [] then 0
    else (if order[0] in groups then |groups[order[0]]| else 0) + GroupTotal(groups, order[1..])
  }

  lemma {:induction false} GroupTotalIsSumCounts(groups: map<string, seq<int>>, order: seq<string>, keys: seq<string>)
    requires forall k :: k in order ==> k in groups && |groups[k]| == multiset(keys)[k]
    ensures GroupTotal(groups, order) == SumCounts(keys, order)
    decreases |order|
  {
    if order != [] {
      GroupTotalIsSumCounts(groups, order[1..], keys);
    }
  }

  lemma SalariesWithSnoc(jobs: seq<Job>, key: Job -> string, i: int)
    requires 0 <= i < |jobs|
    ensures forall k ::
      SalariesWith(jobs[..i + 1], key, k) ==
      SalariesWith(jobs[..i], key, k) + (if key(jobs[i]) == k then [jobs[i].salary] else [])
  {
    assert jobs[..i + 1][..i] == jobs[..i];
  }

  /** Groups holding the salaries of each key's jobs hold one salary per job. */
  lemma GroupTotalIsLength(jobs: seq<Job>, key: Job -> string, order: seq<string>, groups: map<string, seq<int>>)
    requires order == Distinct(Keys(jobs, key))
    requires forall k :: k in groups <==> k in Keys(jobs, key)
    requires forall k :: k in groups ==> groups[k] == SalariesWith(jobs, key, k)
    ensures GroupTotal(groups, order) == |jobs|
  {
    forall k | k in order ensures k in groups && |groups[k]| == multiset(Keys(jobs, key))[k] {
      SalariesWithCount(jobs, key, k);
    }
    GroupTotalIsSumCounts(groups, order, Keys(jobs, key));
    DistinctCountsSum(Keys(jobs, key));
  }

  /** The accumulator after the first `i` jobs. */
  ghost predicate GroupInv(jobs: seq<Job>, key: Job -> string, i: int, order: seq<string>, groups: map<string, seq<int>>)
    requires 0 <= i <= |jobs|
  {
    && order == Distinct(Keys(jobs[..i], key))
    && (forall k :: k in groups <==> k in Keys(jobs[..i], key))
    && (forall k :: k in groups ==> groups[k] == SalariesWith(jobs[..i], key, k))
    && (forall k :: k !in groups ==> SalariesWith(jobs[..i], key, k) == [])
  }

  /** Pushing job `i`'s salary onto its key's group keeps the accumulator right. */
  lemma GroupStep(jobs: seq<Job>, key: Job -> string, i: int, order: seq<string>, groups: map<string, seq<int>>)
    requires 0 <= i < |jobs| && GroupInv(jobs, key, i, order, groups)
    ensures var k := key(jobs[i]);
      GroupInv(jobs, key, i + 1,
        if k in groups then order else order + [k],
        groups[k := (if k in groups then groups[k] else []) + [jobs[i].salary]])
  {
    KeysSnoc(jobs, key, i);
    SalariesWithSnoc(jobs, key, i);
  }

  /** `if (!acc[key]) acc[key] = []; acc[key].push(job.Salary_USD)`: each key
      with the salaries of its jobs in order, one salary per job in all. */
  method GroupSalaries(jobs: seq<Job>, key: Job -> string) returns (order: seq<string>, groups: map<string, seq<int>>)
    ensures order == Distinct(Keys(jobs, key))
    ensures forall k :: k in groups <==> k in Keys(jobs, key)
    ensures forall k :: k in groups ==> groups[k] == SalariesWith(jobs, key, k)
    ensures GroupTotal(groups, order) == |jobs|
  {
    order, groups := [], map[];
    var i := 0;
    while i < |jobs|
      invariant 0 <= i <= |jobs| && GroupInv(jobs, key, i, order, groups)
    {
      var k := key(jobs[i]);
      GroupStep(jobs, key, i, order, groups);
      var group := if k in groups then groups[k] else [];
      if k !in groups {
        order := order + [k];
      }
      groups := groups[k := group + [jobs[i].salary]];
      i := i + 1;
    }
    assert jobs[..i] == jobs;
    GroupTotalIsLength(jobs, key, order, groups);
  }

  /** The number of jobs at location `l`. */
  function LocationCount(jobs: seq<Job>, l: string): nat {
    multiset(Keys(jobs, LocationOf))[l]
  }

  /** The position of the first key of `order` with the largest count. */
  method FirstMax(order: seq<string>, counts: map<string, nat>) returns (b: nat)
    requires order != []
    requires forall m :: 0 <= m < |order| ==> order[m] in counts
    ensures b < |order|
    ensures forall m :: 0 <= m < |order| ==> counts[order[m]] <= counts[order[b]]
    ensures forall m :: 0 <= m < b ==> counts[order[m]] < counts[order[b]]
  {
    b := 0;
    var i := 1;
    while i < |order|
      invariant 1 <= i <= |order| && b < i
      invariant forall m :: 0 <= m < i ==> counts[order[m]] <= counts[order[b]]
      invariant forall m :: 0 <= m < b ==> counts[order[m]] < counts[order[b]]
    {
      if counts[order[i]] > counts[order[b]] {
        b := i;
      }
      i := i + 1;
    }
  }

  /** `Object.entries(counts).sort((a, b) => b[1] - a[1])[0]?.[0]`: a
      location with the most jobs, the first one met among equals (the sort
      is stable); none for an empty list. */
  method TopLocation(jobs: seq<Job>) returns (top: Option<string>)
    ensures top.None? <==> jobs == []
    ensures top.Some? ==> top.value in Keys(jobs, LocationOf)
    ensures top.Some? ==> forall j :: j in jobs ==> LocationCount(jobs, j.location) <= LocationCount(jobs, top.value)
    ensures top.Some? ==> forall j :: j in jobs && LocationCount(jobs, j.location) == LocationCount(jobs, top.value) ==>
      IndexOf(Keys(jobs, LocationOf), top.value) <= IndexOf(Keys(jobs, LocationOf), j.location)
  {
    var order, counts := CountBy(jobs, LocationOf);
    if jobs == [] {
      return None;
    }
    assert Keys(jobs, LocationOf)[0] in counts;
    var b := FirstMax(order, counts);
    top := Some(order[b]);
    FirstMaxIsTop(jobs, order, counts, b);
  }

  /** The first key of `order` with a largest count has the most jobs, and
      comes first in the jobs among the keys with that many. */
  lemma FirstMaxIsTop(jobs: seq<Job>, order: seq<string>, counts: map<string, nat>, b: int)
    requires order == Distinct(Keys(jobs, LocationOf))
    requires forall k :: k in counts <==> k in Keys(jobs, LocationOf)
    requires forall k :: k in counts ==> counts[k] == LocationCount(jobs, k)
    requires 0 <= b < |order|
    requires forall m :: 0 <= m < |order| ==> counts[order[m]] <= counts[order[b]]
    requires forall m :: 0 <= m < b ==> counts[order[m]] < counts[order[b]]
    ensures forall j :: j in jobs ==> LocationCount(jobs, j.location) <= LocationCount(jobs, order[b])
    ensures forall j :: j in jobs && LocationCount(jobs, j.location) == LocationCount(jobs, order[b]) ==>
      IndexOf(Keys(jobs, LocationOf), order[b]) <= IndexOf(Keys(jobs, LocationOf), j.location)
  {
    var keys := Keys(jobs, LocationOf);
    DistinctFirstOccurrenceOrder(keys);
    forall j | j in jobs
      ensures LocationCount(jobs, j.location) <= LocationCount(jobs, order[b])
      ensures LocationCount(jobs, j.location) == LocationCount(jobs, order[b]) ==>
        IndexOf(keys, order[b]) <= IndexOf(keys, j.location)
    {
      var n :| 0 <= n < |jobs| && jobs[n] == j;
      assert keys[n] == j.location;
      var m := IndexOf(order, j.location);
    }
  }

  // ---------------------------------------------------------------------
  // Resume matching

  function SkillInText(text: string): string -> bool {
    (skill: string) => Contains(ToLower(text), ToLower(skill))
  }

  /** `allSkills.filter(skill => text.toLowerCase().includes(skill.toLowerCase()))`. */
  function MatchedSkills(allSkills: seq<string>, text: string): (r: seq<string>)
    ensures IsSubseq(r, allSkills)
    ensures forall s :: s in r <==> s in allSkills && Contains(ToLower(text), ToLower(s))
    ensures forall s {:trigger multiset(r)[s]} ::
      multiset(r)[s] == if Contains(ToLower(text), ToLower(s)) then multiset(allSkills)[s] else 0
  {
    FilterSpec(allSkills, SkillInText(text));
    FilterIsSubseq(allSkills, SkillInText(text));
    Filter(allSkills, SkillInText(text))
  }

  function HasAll(skills: seq<string>): Job -> bool {
    (job: Job) => HasAllSkills(job, skills)
  }

  /** `jobData.filter(job => matchedSkills.every(...))`. */
  function ResumeJobs(jobs: seq<Job>, matched: seq<string>): (r: seq<Job>)
    ensures IsSubseq(r, jobs)
    ensures forall x :: x in r <==> x in jobs && HasAllSkills(x, matched)
    ensures forall x {:trigger multiset(r)[x]} ::
      multiset(r)[x] == if HasAllSkills(x, matched) then multiset(jobs)[x] else 0
  {
    FilterSpec(jobs, HasAll(matched));
    FilterIsSubseq(jobs, HasAll(matched));
    Filter(jobs, HasAll(matched))
  }

  /** The resume's jobs are the filter effect's result for the matched
      skills with no location and no experience chosen. */
  lemma ResumeJobsAreMatching(jobs: seq<Job>, matched: seq<string>)
    ensures ResumeJobs(jobs, matched) == MatchingJobs(jobs, matched, "", "")
  {
    FilterExt(jobs, HasAll(matched), Matcher(matched, "", ""));
  }

  // ---------------------------------------------------------------------
  // The page state

  /** The React state of the page that the list logic reads and writes. */
  class Dashboard {
    const jobData: seq<Job>
    var filteredData: seq<Job>
    var selectedSkills: seq<string>
    var location: string
    var experience: string
    var currentPage: nat

    /** What every handler leaves behind: the list is the filter of the data
        for the current choices, and the page is one that exists (page 1
        when the list is empty). */
    predicate Valid()
      reads this
    {
      filteredData == MatchingJobs(jobData, selectedSkills, location, experience)
      && 1 <= currentPage <= Max(1, TotalPages(|filteredData|))
    }

    /** `filteredData.slice(...)` for the current page: at most 15 jobs, the
        ones at the page's positions, and some whenever the list has any. */
    function PaginatedJobs(): (r: seq<Job>)
      reads this
      ensures |r| <= JobsPerPage
      ensures currentPage >= 1 ==> |r| == Max(0, Min(JobsPerPage, |filteredData| - (currentPage - 1) * JobsPerPage))
      ensures forall i :: 0 <= i < |r| ==>
        0 <= (currentPage - 1) * JobsPerPage + i < |filteredData| && r[i] == filteredData[(currentPage - 1) * JobsPerPage + i]
      ensures Valid() ==> (r != [] <==> filteredData != [])
    {
      PageOf(filteredData, currentPage)
    }

    /** The first render with its effects: nothing chosen, page 1, all jobs. */
    constructor(data: seq<Job>)
      ensures Valid()
      ensures jobData == data && filteredData == data && selectedSkills == []
      ensures location == "" && experience == "" && currentPage == 1
    {
      jobData := data;
      filteredData := data;
      selectedSkills := [];
      location := "";
      experience := "";
      currentPage := 1;
      NoFilters(data);
    }

    /** The two effects on `[selectedSkills, location, experience]`: back to
        page 1, and the list recomputed. */
    method RunEffects()
      modifies this
      ensures filteredData == MatchingJobs(jobData, selectedSkills, location, experience)
      ensures currentPage == 1
      ensures selectedSkills == old(selectedSkills) && location == old(location) && experience == old(experience)
      ensures Valid()
    {
      currentPage := 1;
      filteredData := ApplyFilters(jobData, selectedSkills, location, experience);
    }

    /** The skills picker: a new array, so the effects always run. */
    method SetSelectedSkills(skills: seq<string>)
      modifies this
      ensures selectedSkills == skills && location == old(location) && experience == old(experience)
      ensures filteredData == MatchingJobs(jobData, skills, location, experience)
      ensures currentPage == 1
      ensures Valid()
    {
      selectedSkills := skills;
      RunEffects();
    }

    /** The location select; choosing the current value changes nothing. */
    method SetLocation(loc: string)
      requires Valid()
      modifies this
      ensures location == loc && selectedSkills == old(selectedSkills) && experience == old(experience)
      ensures loc == old(location) ==> filteredData == old(filteredData) && currentPage == old(currentPage)
      ensures loc != old(location) ==>
        filteredData == MatchingJobs(jobData, selectedSkills, loc, experience) && currentPage == 1
      ensures Valid()
    {
      if loc != location {
        location := loc;
        RunEffects();
      }
    }

    /** The experience select; choosing the current value changes nothing. */
    method SetExperience(exp: string)
      requires Valid()
      modifies this
      ensures experience == exp && selectedSkills == old(selectedSkills) && location == old(location)
      ensures exp == old(experience) ==> filteredData == old(filteredData) && currentPage == old(currentPage)
      ensures exp != old(experience) ==>
        filteredData == MatchingJobs(jobData, selectedSkills, location, exp) && currentPage == 1
      ensures Valid()
    {
      if exp != experience {
        experience := exp;
        RunEffects();
      }
    }

    /** `setCurrentPage(prev => Math.max(prev - 1, 1))`. */
    method Previous()
      requires Valid()
      modifies this
      ensures currentPage == Max(old(currentPage) - 1, 1) && currentPage >= 1
      ensures filteredData == old(filteredData) && selectedSkills == old(selectedSkills)
      ensures location == old(location) && experience == old(experience)
      ensures Valid()
    {
      currentPage := Max(currentPage - 1, 1);
    }

    /** `setCurrentPage(prev => Math.min(prev + 1, totalPages))`; the button
        is only shown while the current page has jobs. */
    method Next()
      requires Valid() && PaginatedJobs() != []
      modifies this
      ensures currentPage == Min(old(currentPage) + 1, TotalPages(|filteredData|))
      ensures currentPage <= TotalPages(|filteredData|)
      ensures filteredData == old(filteredData) && selectedSkills == old(selectedSkills)
      ensures location == old(location) && experience == old(experience)
      ensures Valid()
    {
      currentPage := Min(currentPage + 1, TotalPages(|filteredData|));
    }

    /** The resume upload with the file's text: the matched skills become
        the selection and the resume's jobs are shown; the effects then run
        on the new selection, so the location and experience still apply. */
    method UploadResume(text: string)
      modifies this
      ensures selectedSkills == MatchedSkills(AllSkills(jobData), text)
      ensures location == old(location) && experience == old(experience)
      ensures filteredData == MatchingJobs(jobData, selectedSkills, location, experience)
      ensures location == "" && experience == "" ==> filteredData == ResumeJobs(jobData, selectedSkills)
      ensures currentPage == 1
      ensures Valid()
    {
      var matched := MatchedSkills(AllSkills(jobData), text);
      selectedSkills := matched;
      filteredData := ResumeJobs(jobData, matched);
      RunEffects();
      ResumeJobsAreMatching(jobData, matched);
    }
  }
}
