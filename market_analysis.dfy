/** The data rules of the market-analysis dashboard: the Skills rewrite done
    when the table is loaded, the Salary Analysis filter, the skill counts
    and skill options of the skill pages, and the Career Simulator's rows and
    missing skills. The date window is `Frame.DateRange`, the simulator's rows
    `Frame.AtLocationAndLevel`. */
module MarketAnalysis {
  import opened Strings
  import opened Seqs
  import opened Frame

  // ---------------------------------------------------------------------
  // Skills normalisation

  /** `str.replace(', ', ',').str.replace(',', ', ')`. Tokens are not
      trimmed: only the space right after a comma is touched. */
  function Normalize(s: string): string {
    ReplaceAll(ReplaceAll(s, ", ", ","), ",", ", ")
  }

  /** The loaded cell is the comma-separated pieces of the text, once every
      `", "` is collapsed to `","`, joined again with `", "`. */
  lemma NormalizeJoinsPieces(s: string)
    ensures Normalize(s) == Join(Split(ReplaceAll(s, ", ", ","), ","), ", ")
  {
    ReplaceAllIsSplitJoin(ReplaceAll(s, ", ", ","), ",", ", ");
  }

  /** A one-pass reading of the two replacements: each comma comes out as
      `", "`, absorbing one space that already followed it. */
  function SpaceCommas(s: string): string
    decreases |s|
  {
    if s == [] then []
    else if s[0] == ',' && |s| >= 2 && s[1] == ' ' then ", " + SpaceCommas(s[2..])
    else if s[0] == ',' then ", " + SpaceCommas(s[1..])
    else [s[0]] + SpaceCommas(s[1..])
  }

  /** Every comma is followed by a space. */
  predicate CommasSpaced(s: string) {
    forall i :: 0 <= i < |s| && s[i] == ',' ==> i + 1 < |s| && s[i + 1] == ' '
  }

  function Spaces(k: nat): (r: string)
    ensures |r| == k && forall i :: 0 <= i < k ==> r[i] == ' '
  {
    seq(k, i => ' ')
  }

  lemma {:induction false} NormalizeIsSpaceCommas(s: string)
    ensures Normalize(s) == SpaceCommas(s)
    decreases |s|
  {
    var r1 := ReplaceAll(s, ", ", ",");
    if |s| < 2 {
      assert r1 == s;
      if s != [] {
        assert s[1..] == [];
        assert ReplaceAll(s, ",", ", ") == if s[0] == ',' then ", " else [s[0]];
      }
    } else if s[..2] == ", " {
      NormalizeIsSpaceCommas(s[2..]);
      assert r1 == "," + ReplaceAll(s[2..], ", ", ",");
      ReplaceCharAppend(",", ReplaceAll(s[2..], ", ", ","), ',', ", ");
      assert s[0] == ',' && s[1] == ' ';
    } else {
      NormalizeIsSpaceCommas(s[1..]);
      assert r1 == [s[0]] + ReplaceAll(s[1..], ", ", ",");
      ReplaceCharAppend([s[0]], ReplaceAll(s[1..], ", ", ","), ',', ", ");
      assert ReplaceAll([s[0]], ",", ", ") == if s[0] == ',' then ", " else [s[0]];
      if s[0] == ',' {
        assert s[1] != ' ';
      }
    }
  }

  lemma CommasSpacedBehind(s: string, k: nat)
    requires CommasSpaced(s) && k <= |s|
    ensures CommasSpaced(s[k..])
  {
    assert forall i :: 0 <= i < |s| - k ==> s[k..][i] == s[k + i];
  }

  lemma CommasSpacedPrepend(p: string, t: string)
    requires CommasSpaced(t)
    requires p == ", " || (|p| == 1 && p[0] != ',')
    ensures CommasSpaced(p + t)
  {
    var r := p + t;
    assert forall i :: |p| <= i < |r| ==> r[i] == t[i - |p|];
  }

  lemma {:induction false} SpaceCommasSpaced(s: string)
    ensures CommasSpaced(SpaceCommas(s))
    decreases |s|
  {
    if s != [] {
      var rest := if s[0] == ',' && |s| >= 2 && s[1] == ' ' then s[2..] else s[1..];
      SpaceCommasSpaced(rest);
      if s[0] == ',' {
        CommasSpacedPrepend(", ", SpaceCommas(rest));
      } else {
        SpaceCommasSpaced(s[1..]);
        CommasSpacedPrepend([s[0]], SpaceCommas(s[1..]));
      }
    }
  }

  /** One step of the rewrite: the first character (with the space after it,
      when it is a comma followed by one) becomes `head`, which is that
      piece itself except for a lone comma. */
  lemma SpaceCommasStep(s: string) returns (k: nat, head: string)
    requires s != []
    ensures 1 <= k <= |s| && SpaceCommas(s) == head + SpaceCommas(s[k..])
    ensures s[..k] == head || (s[..k] == "," && head == ", ")
  {
    if s[0] == ',' && |s| >= 2 && s[1] == ' ' {
      k, head := 2, ", ";
      assert s[..k] == [',', ' '];
    } else if s[0] == ',' {
      k, head := 1, ", ";
      assert s[..k] == [','];
    } else {
      k, head := 1, [s[0]];
      assert s[..k] == [s[0]];
    }
  }

  lemma {:induction false} SpaceCommasCount(s: string)
    ensures multiset(SpaceCommas(s))[','] == multiset(s)[',']
    decreases |s|
  {
    if s != [] {
      var k, head := SpaceCommasStep(s);
      SpaceCommasCount(s[k..]);
      CountAppend(head, SpaceCommas(s[k..]), ',');
      assert s == s[..k] + s[k..];
      CountAppend(s[..k], s[k..], ',');
      if s[..k] != head {
        assert multiset(", ")[','] == 1 == multiset(",")[','];
      }
    }
  }

  lemma {:induction false} SpaceCommasNoComma(s: string)
    requires ',' !in s
    ensures SpaceCommas(s) == s
    decreases |s|
  {
    if s != [] {
      SpaceCommasNoComma(s[1..]);
      assert s == [s[0]] + s[1..];
    }
  }

  lemma {:induction false} SpaceCommasFixesSpaced(s: string)
    requires CommasSpaced(s)
    ensures SpaceCommas(s) == s
    decreases |s|
  {
    if s != [] {
      if s[0] == ',' {
        CommasSpacedBehind(s, 2);
        SpaceCommasFixesSpaced(s[2..]);
        assert s == ", " + s[2..];
      } else {
        CommasSpacedBehind(s, 1);
        SpaceCommasFixesSpaced(s[1..]);
        assert s == [s[0]] + s[1..];
      }
    }
  }

  /** The first step of the rewrite of `a + b` is the first step of the
      rewrite of `a`. */
  lemma SpaceCommasLeading(a: string, b: string) returns (head: string, rest: string)
    requires a != []
    requires !(a[|a| - 1] == ',' && b != [] && b[0] == ' ')
    ensures |rest| < |a| && !(rest != [] && rest[|rest| - 1] == ',' && b != [] && b[0] == ' ')
    ensures SpaceCommas(a) == head + SpaceCommas(rest)
    ensures SpaceCommas(a + b) == head + SpaceCommas(rest + b)
  {
    var ab := a + b;
    var k := if a[0] == ',' && |a| >= 2 && a[1] == ' ' then 2 else 1;
    head := if a[0] == ',' then ", " else [a[0]];
    rest := a[k..];
    assert ab[0] == a[0];
    assert |a| >= 2 ==> ab[1] == a[1];
    assert ab[k..] == rest + b;
    assert rest != [] ==> rest[|rest| - 1] == a[|a| - 1];
  }

  /** The rewrite distributes over a concatenation, unless the first part
      ends with a comma whose following space would come from the second. */
  lemma {:induction false} SpaceCommasAppend(a: string, b: string)
    requires !(a != [] && a[|a| - 1] == ',' && b != [] && b[0] == ' ')
    ensures SpaceCommas(a + b) == SpaceCommas(a) + SpaceCommas(b)
    decreases |a|
  {
    if a == [] {
      assert a + b == b;
    } else {
      var head, rest := SpaceCommasLeading(a, b);
      SpaceCommasAppend(rest, b);
      AppendAssoc(head, SpaceCommas(rest), SpaceCommas(b));
    }
  }

  // The properties of the normalisation

  /** After the rewrite, every comma is followed by a space. */
  lemma NormalizeSpacesCommas(s: string)
    ensures CommasSpaced(Normalize(s))
  {
    NormalizeIsSpaceCommas(s);
    SpaceCommasSpaced(s);
  }

  /** The rewrite neither adds nor removes commas. */
  lemma NormalizeKeepsCommaCount(s: string)
    ensures multiset(Normalize(s))[','] == multiset(s)[',']
  {
    NormalizeIsSpaceCommas(s);
    SpaceCommasCount(s);
  }

  /** A cell without a comma is left as it is. */
  lemma NormalizeNoComma(s: string)
    requires ',' !in s
    ensures Normalize(s) == s
  {
    NormalizeIsSpaceCommas(s);
    SpaceCommasNoComma(s);
  }

  /** A cell whose commas are all followed by a space is left as it is. */
  lemma NormalizeFixesSpaced(s: string)
    requires CommasSpaced(s)
    ensures Normalize(s) == s
  {
    NormalizeIsSpaceCommas(s);
    SpaceCommasFixesSpaced(s);
  }

  /** Normalising twice is normalising once. */
  lemma NormalizeIdempotent(s: string)
    ensures Normalize(Normalize(s)) == Normalize(s)
  {
    NormalizeSpacesCommas(s);
    NormalizeFixesSpaced(Normalize(s));
  }

  lemma SpaceCommasSpacesFirst(k: nat, r: string)
    ensures SpaceCommas(Spaces(k) + r) == Spaces(k) + SpaceCommas(r)
  {
    var sp := Spaces(k);
    assert sp == [] || sp[|sp| - 1] == ' ';
    SpaceCommasAppend(sp, r);
    assert ',' !in sp;
    SpaceCommasNoComma(sp);
  }

  lemma SpaceCommasCommaSpaces(k: nat, r: string)
    requires k >= 1
    ensures SpaceCommas("," + Spaces(k) + r) == "," + Spaces(k) + SpaceCommas(r)
  {
    var sp := Spaces(k - 1);
    var x := "," + Spaces(k) + r;
    assert Spaces(k) == [' '] + sp;
    assert x[0] == ',' && x[1] == ' ' && x[2..] == sp + r;
    SpaceCommasSpacesFirst(k - 1, r);
    assert ", " + sp == "," + Spaces(k);
  }

  lemma SpaceCommasKeepsSpaces(a: string, k: nat, r: string)
    requires k >= 1
    ensures SpaceCommas(a + "," + Spaces(k) + r) == SpaceCommas(a) + "," + Spaces(k) + SpaceCommas(r)
  {
    var comma, sp := ",", Spaces(k);
    var x := comma + sp + r;
    assert a + comma + sp + r == a + x;
    SpaceCommasAppend(a, x);
    SpaceCommasCommaSpaces(k, r);
    AppendAssoc(SpaceCommas(a), comma + sp, SpaceCommas(r));
  }

  /** A comma followed by `k >= 1` spaces keeps exactly those `k` spaces;
      the text around it is normalised on its own. */
  lemma NormalizeKeepsSpaces(a: string, k: nat, r: string)
    requires k >= 1
    ensures Normalize(a + "," + Spaces(k) + r) == Normalize(a) + "," + Spaces(k) + Normalize(r)
  {
    NormalizeIsSpaceCommas(a + "," + Spaces(k) + r);
    NormalizeIsSpaceCommas(a);
    NormalizeIsSpaceCommas(r);
    SpaceCommasKeepsSpaces(a, k, r);
  }

  lemma SpaceCommasBareComma(r: string)
    requires r == [] || r[0] != ' '
    ensures SpaceCommas("," + r) == ", " + SpaceCommas(r)
  {
    var x := "," + r;
    assert x[0] == ',' && x[1..] == r;
  }

  /** A comma not followed by a space gets one. */
  lemma NormalizeSpacesBareComma(a: string, r: string)
    requires r == [] || r[0] != ' '
    ensures Normalize(a + "," + r) == Normalize(a) + ", " + Normalize(r)
  {
    var x := "," + r;
    assert a + "," + r == a + x;
    NormalizeIsSpaceCommas(a + x);
    NormalizeIsSpaceCommas(a);
    NormalizeIsSpaceCommas(r);
    SpaceCommasAppend(a, x);
    SpaceCommasBareComma(r);
  }

  /** After the rewrite, splitting on `", "` cuts at every comma: no token
      contains a comma, which is the consistency the rewrite is there for. */
  lemma {:induction false} SpacedTokensHaveNoComma(s: string)
    requires CommasSpaced(s)
    ensures forall t :: t in Split(s, SkillSeparator) ==> ',' !in t
    decreases |s|
  {
    if |s| < 2 {
      if s != [] {
        assert s[0] != ',';
        assert s == [s[0]];
      }
    } else if s[..2] == SkillSeparator {
      CommasSpacedBehind(s, 2);
      SpacedTokensHaveNoComma(s[2..]);
    } else {
      CommasSpacedBehind(s, 1);
      SpacedTokensHaveNoComma(s[1..]);
      var rest := Split(s[1..], SkillSeparator);
      var c0, c1 := s[0], s[1];
      assert s[..2] == [c0, c1];
      assert c0 == ',' ==> c1 == ' ';
      assert c0 != ',';
      assert rest[0] in rest;
      assert forall t :: t in Split(s, SkillSeparator) ==> t == [s[0]] + rest[0] || t in rest[1..];
      assert forall t :: t in rest[1..] ==> t in rest;
    }
  }

  // ---------------------------------------------------------------------
  // Loading

  /** The Skills column rewritten by `load_data`; the other columns are kept. */
  function LoadSkills(raw: seq<Row>): (df: seq<Row>)
    ensures |df| == |raw|
    ensures forall i :: 0 <= i < |raw| ==>
      && df[i].jobTitle == raw[i].jobTitle && df[i].salary == raw[i].salary
      && df[i].experience == raw[i].experience && df[i].location == raw[i].location
      && df[i].posted == raw[i].posted
    ensures forall i :: 0 <= i < |raw| ==>
      && CommasSpaced(df[i].skills)
      && multiset(df[i].skills)[','] == multiset(raw[i].skills)[',']
      && (CommasSpaced(raw[i].skills) ==> df[i].skills == raw[i].skills)
  {
    var df := seq(|raw|, i requires 0 <= i < |raw| => raw[i].(skills := Normalize(raw[i].skills)));
    forall i | 0 <= i < |raw|
      ensures CommasSpaced(df[i].skills)
      ensures multiset(df[i].skills)[','] == multiset(raw[i].skills)[',']
      ensures CommasSpaced(raw[i].skills) ==> df[i].skills == raw[i].skills
    {
      NormalizeSpacesCommas(raw[i].skills);
      NormalizeKeepsCommaCount(raw[i].skills);
      if CommasSpaced(raw[i].skills) {
        NormalizeFixesSpaced(raw[i].skills);
      }
    }
    df
  }

  /** Loading a loaded table changes nothing. */
  lemma LoadSkillsIdempotent(raw: seq<Row>)
    ensures LoadSkills(LoadSkills(raw)) == LoadSkills(raw)
  {
    var df := LoadSkills(raw);
    var df2 := LoadSkills(df);
    forall i | 0 <= i < |raw| ensures df2[i] == df[i] {
      assert df2[i].skills == df[i].skills;
    }
  }

  /** No token of the loaded table contains a comma. */
  lemma LoadedTokensHaveNoComma(raw: seq<Row>)
    ensures forall t :: t in Explode(LoadSkills(raw)) ==> ',' !in t
  {
    var df := LoadSkills(raw);
    forall t | t in Explode(df) ensures ',' !in t {
      var i := ExplodeSource(df, t);
      SpacedTokensHaveNoComma(df[i].skills);
    }
  }

  // ---------------------------------------------------------------------
  // Salary Analysis

  predicate SalaryAnalysisKeeps(x: Row, locations: seq<string>, levels: seq<string>, lo: int, hi: int) {
    x.location in locations && x.experience in levels && lo <= x.salary && x.salary <= hi
  }

  /** `df[Location.isin(...) & Experience_Level.isin(...) & (Salary >= lo) & (Salary <= hi)]`. */
  function SalaryAnalysis(df: seq<Row>, locations: seq<string>, levels: seq<string>, lo: int, hi: int): (r: seq<Row>)
    ensures IsSubseq(r, df)
    ensures forall x :: x in r <==> x in df && SalaryAnalysisKeeps(x, locations, levels, lo, hi)
    ensures forall x {:trigger multiset(r)[x]} ::
      multiset(r)[x] == if SalaryAnalysisKeeps(x, locations, levels, lo, hi) then multiset(df)[x] else 0
  {
    var keep := (x: Row) => SalaryAnalysisKeeps(x, locations, levels, lo, hi);
    FilterSpec(df, keep);
    FilterIsSubseq(df, keep);
    Filter(df, keep)
  }

  /** An empty salary window (`lo > hi`), no chosen location or no chosen
      level shows nothing. */
  lemma SalaryAnalysisEmpty(df: seq<Row>, locations: seq<string>, levels: seq<string>, lo: int, hi: int)
    requires lo > hi || locations == [] || levels == []
    ensures SalaryAnalysis(df, locations, levels, lo, hi) == []
  {
    var r := SalaryAnalysis(df, locations, levels, lo, hi);
    assert forall x :: x !in r;
    assert forall i :: 0 <= i < |r| ==> r[i] in r;
  }

  // ---------------------------------------------------------------------
  // Skill pages

  /** `skills.value_counts().head(10)` over the loaded table: the ten most
      frequent tokens (all of them when there are fewer), distinct, none
      with a comma, by non-increasing count, each with its exact count. */
  function SkillFrequency(raw: seq<Row>): (r: seq<Entry>)
    ensures |r| == Min(10, |Distinct(Explode(LoadSkills(raw)))|)
    ensures forall i :: 0 <= i < |r| ==>
      && r[i].0 in Explode(LoadSkills(raw))
      && 1 <= r[i].1 == multiset(Explode(LoadSkills(raw)))[r[i].0]
      && ',' !in r[i].0
    ensures forall i, j :: 0 <= i < j < |r| ==> r[i].0 != r[j].0 && r[i].1 >= r[j].1
    ensures forall t :: t in Explode(LoadSkills(raw)) && t !in Names(r) ==>
      forall i :: 0 <= i < |r| ==> multiset(Explode(LoadSkills(raw)))[t] <= r[i].1
  {
    var df := LoadSkills(raw);
    LoadedTokensHaveNoComma(raw);
    var r := SkillCounts(df, 10);
    assert forall i :: 0 <= i < |r| ==> r[i].0 in Explode(df) by {
      forall i | 0 <= i < |r| ensures r[i].0 in Explode(df) {
        assert r[i].1 >= 1;
        assert r[i].0 in multiset(Explode(df));
      }
    }
    r
  }

  /** `df["Skills"].str.split(", ").explode().unique()`: the options of the
      skills picker, each token once, in first-occurrence order. */
  function SkillOptions(raw: seq<Row>): (r: seq<string>)
    ensures NoDup(r)
    ensures forall t :: t in r <==> t in Explode(LoadSkills(raw))
    ensures forall t :: t in r ==> ',' !in t
  {
    LoadedTokensHaveNoComma(raw);
    Distinct(Explode(LoadSkills(raw)))
  }

  // ---------------------------------------------------------------------
  // Career Simulator

  /** The five most frequent tokens of the loaded table. */
  function TopFiveSkills(raw: seq<Row>): set<string> {
    set e | e in Top(Explode(LoadSkills(raw)), 5) :: e.0
  }

  /** `set(value_counts().index[:5]) - set(user_skills)`. */
  function MissingSkills(raw: seq<Row>, userSkills: seq<string>): (r: set<string>)
    ensures r <= TopFiveSkills(raw)
    ensures forall s :: s in userSkills ==> s !in r
    ensures forall s :: s in TopFiveSkills(raw) && s !in userSkills ==> s in r
    ensures |r| <= 5
    ensures (forall s :: s in TopFiveSkills(raw) ==> s in userSkills) ==> r == {}
  {
    var top := Top(Explode(LoadSkills(raw)), 5);
    TopSpec(Explode(LoadSkills(raw)), 5);
    TopNamesSize(top);
    TopFiveSkills(raw) - set s | s in userSkills
  }

  /** At most as many names as entries. */
  lemma TopNamesSize(top: seq<Entry>)
    ensures |set e | e in top :: e.0| <= |top|
    decreases |top|
  {
    if top != [] {
      TopNamesSize(top[1..]);
      assert (set e | e in top :: e.0) == (set e | e in top[1..] :: e.0) + {top[0].0};
    }
  }
}
