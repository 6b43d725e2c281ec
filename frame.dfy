/** The job-postings table as the two Streamlit scripts see it, and the
    table operations both of them use: exploding the Skills column into
    tokens, `value_counts().head(n)` over the tokens, and the inclusive
    date window followed by a sort on Date_Posted. */
module Frame {
  import opened Strings
  import opened Seqs

  /** One row of the CSV file. Dates are abstract ordered values (days). */
  datatype Row = Row(
    jobTitle: string,
    salary: int,
    experience: string,
    skills: string,
    location: string,
    posted: int)

  /** The separator `str.split` is given for the Skills column. */
  const SkillSeparator: string := ", "

  // ---------------------------------------------------------------------
  // Split and explode

  /** The tokens of one Skills cell: one more than its separators. */
  function Tokens(skills: string): (r: seq<string>)
    ensures |r| == Occurrences(skills, SkillSeparator) + 1
  {
    Split(skills, SkillSeparator)
  }

  /** Joining the tokens of a cell with the separator restores the cell. */
  lemma TokensJoin(skills: string)
    ensures Join(Tokens(skills), SkillSeparator) == skills
  {
    JoinSplit(skills, SkillSeparator);
  }

  /** The number of tokens the explode yields: one more than the
      separators of each row. */
  function TokenTotal(rows: seq<Row>): nat
    decreases |rows|
  {
    if rows == [] then 0
    else Occurrences(rows[0].skills, SkillSeparator) + 1 + TokenTotal(rows[1..])
  }

  /** `df["Skills"].str.split(", ").explode()`: the tokens of every row, row
      after row. A row contributes at least one token (an empty cell gives
      the empty token). */
  function Explode(rows: seq<Row>): seq<string>
    decreases |rows|
  {
    if rows == [] then [] else Tokens(rows[0].skills) + Explode(rows[1..])
  }

  /** The exploded column has one token per cell plus one per separator. */
  lemma {:induction false} ExplodeLength(rows: seq<Row>)
    ensures |Explode(rows)| == TokenTotal(rows)
    decreases |rows|
  {
    if rows != [] {
      ExplodeLength(rows[1..]);
    }
  }

  lemma ExplodeCons(row: Row, rows: seq<Row>)
    ensures Explode([row] + rows) == Tokens(row.skills) + Explode(rows)
  {
    assert ([row] + rows)[0] == row && ([row] + rows)[1..] == rows;
  }

  lemma {:induction false} ExplodeAppend(a: seq<Row>, b: seq<Row>)
    ensures Explode(a + b) == Explode(a) + Explode(b)
    decreases |a|
  {
    if a == [] {
      assert a + b == b;
    } else {
      ExplodeAppend(a[1..], b);
      ConsAppend(a, b);
      ExplodeCons(a[0], a[1..] + b);
      ExplodeCons(a[0], a[1..]);
    }
  }

  lemma ExplodeAround(a: seq<Row>, row: Row, b: seq<Row>)
    ensures Explode(a + [row] + b) == Explode(a) + Tokens(row.skills) + Explode(b)
  {
    ExplodeAppend(a + [row], b);
    ExplodeAppend(a, [row]);
    assert [row][1..] == [];
  }

  /** The tokens of row `i` sit in the exploded column right after the
      tokens of the rows before it. */
  lemma ExplodeRow(rows: seq<Row>, i: int)
    requires 0 <= i < |rows|
    ensures Explode(rows) == Explode(rows[..i]) + Tokens(rows[i].skills) + Explode(rows[i + 1..])
  {
    SplitAt(rows, i);
    ExplodeAround(rows[..i], rows[i], rows[i + 1..]);
  }

  /** Every exploded token comes from the cell of some row. */
  lemma {:induction false} ExplodeSource(rows: seq<Row>, t: string) returns (i: nat)
    requires t in Explode(rows)
    ensures i < |rows| && t in Tokens(rows[i].skills)
    decreases |rows|
  {
    if t in Tokens(rows[0].skills) {
      i := 0;
    } else {
      var j := ExplodeSource(rows[1..], t);
      i := j + 1;
    }
  }

  /** Every token of every cell is in the exploded column. */
  lemma ExplodeHasRowTokens(rows: seq<Row>, i: int, t: string)
    requires 0 <= i < |rows| && t in Tokens(rows[i].skills)
    ensures t in Explode(rows)
  {
    ExplodeRow(rows, i);
  }

  // ---------------------------------------------------------------------
  // value_counts

  /** A count entry: a token and the number of times it occurs. */
  type Entry = (string, nat)

  function Names(es: seq<Entry>): (r: seq<string>)
    ensures |r| == |es|
    ensures forall i :: 0 <= i < |es| ==> r[i] == es[i].0
  {
    seq(|es|, i requires 0 <= i < |es| => es[i].0)
  }

  /** Sort key of `value_counts`: the count, largest first. */
  function ByCountDescending(e: Entry): int { -(e.1 as int) }

  /** One entry per distinct token, in first-occurrence order, with its count. */
  function Tally(tokens: seq<string>): (r: seq<Entry>)
    ensures Names(r) == Distinct(tokens)
    ensures forall i :: 0 <= i < |r| ==> r[i].1 == multiset(tokens)[r[i].0]
  {
    var d := Distinct(tokens);
    seq(|d|, i requires 0 <= i < |d| => (d[i], multiset(tokens)[d[i]]))
  }

  /** `value_counts()`: the tally ordered by descending count. Ties are kept
      in first-occurrence order, one of the orders pandas may produce. */
  function ValueCounts(tokens: seq<string>): seq<Entry> {
    SortBy(Tally(tokens), ByCountDescending)
  }

  /** `value_counts().head(n)`. */
  function Top(tokens: seq<string>, n: nat): seq<Entry> {
    var vc := ValueCounts(tokens);
    vc[..Min(n, |vc|)]
  }

  /** Every tally entry names a token with its exact count. */
  lemma TallyEntry(tokens: seq<string>, e: Entry)
    requires e in Tally(tokens)
    ensures e.0 in tokens && e.1 == multiset(tokens)[e.0] && e.1 >= 1
  {
    var ta := Tally(tokens);
    var k :| 0 <= k < |ta| && ta[k] == e;
    assert Names(ta)[k] == e.0;
  }

  lemma TallyNoDup(tokens: seq<string>)
    ensures NoDup(Tally(tokens))
  {
    var ta := Tally(tokens);
    forall i, j | 0 <= i < j < |ta| ensures ta[i] != ta[j] {
      assert Names(ta)[i] == ta[i].0 && Names(ta)[j] == ta[j].0;
    }
  }

  /** Every token has an entry in the counts. */
  lemma ValueCountsCover(tokens: seq<string>, t: string)
    requires t in tokens
    ensures t in Names(ValueCounts(tokens))
  {
    var ta := Tally(tokens);
    var vc := ValueCounts(tokens);
    assert t in Names(ta);
    var k :| 0 <= k < |ta| && Names(ta)[k] == t;
    assert ta[k] in multiset(ta);
    assert ta[k] in multiset(vc);
    var m :| 0 <= m < |vc| && vc[m] == ta[k];
    assert Names(vc)[m] == t;
  }

  /** Entries with the same token are the same entry, and no entry occurs
      twice, so no token occurs twice. */
  lemma ValueCountsDistinctNames(tokens: seq<string>)
    ensures var vc := ValueCounts(tokens);
      forall i, j :: 0 <= i < j < |vc| ==> vc[i].0 != vc[j].0
  {
    var ta := Tally(tokens);
    var vc := ValueCounts(tokens);
    TallyNoDup(tokens);
    NoDupPermutation(ta, vc);
    forall i, j | 0 <= i < j < |vc| ensures vc[i].0 != vc[j].0 {
      assert vc[i] in multiset(ta) && vc[j] in multiset(ta);
      TallyEntry(tokens, vc[i]);
      TallyEntry(tokens, vc[j]);
    }
  }

  /** What `value_counts` promises: one entry per distinct token, each with
      the token's exact count (at least one), in non-increasing count order. */
  lemma ValueCountsSpec(tokens: seq<string>)
    ensures var vc := ValueCounts(tokens);
      && |vc| == |Distinct(tokens)|
      && (forall t :: t in Names(vc) <==> t in tokens)
      && (forall i :: 0 <= i < |vc| ==> vc[i].1 == multiset(tokens)[vc[i].0] && vc[i].1 >= 1)
      && (forall i, j :: 0 <= i < j < |vc| ==> vc[i].0 != vc[j].0 && vc[i].1 >= vc[j].1)
  {
    var ta := Tally(tokens);
    var vc := ValueCounts(tokens);
    assert |vc| == |ta| by {
      assert |multiset(vc)| == |vc| && |multiset(ta)| == |ta|;
    }
    forall i | 0 <= i < |vc|
      ensures vc[i].0 in tokens && vc[i].1 == multiset(tokens)[vc[i].0] && vc[i].1 >= 1
    {
      assert vc[i] in multiset(ta);
      TallyEntry(tokens, vc[i]);
    }
    forall t | t in tokens ensures t in Names(vc) {
      ValueCountsCover(tokens, t);
    }
    ValueCountsDistinctNames(tokens);
    assert SortedBy(vc, ByCountDescending);
  }

  /** A token left out of `value_counts().head(n)` occurs no more often
      than any token shown. */
  lemma TopOmitted(tokens: seq<string>, n: nat, t: string)
    requires t in tokens && t !in Names(Top(tokens, n))
    ensures forall i :: 0 <= i < |Top(tokens, n)| ==> multiset(tokens)[t] <= Top(tokens, n)[i].1
  {
    var vc := ValueCounts(tokens);
    var top := Top(tokens, n);
    ValueCountsSpec(tokens);
    var m :| 0 <= m < |vc| && Names(vc)[m] == t;
    assert m >= |top| by {
      assert forall k :: 0 <= k < |top| ==> top[k] == vc[k];
    }
    assert forall i :: 0 <= i < |top| ==> top[i] == vc[i] && i < m;
  }

  /** What `value_counts().head(n)` promises: at most `n` entries with exact
      counts, and no token left out occurs more often than any token shown. */
  lemma TopSpec(tokens: seq<string>, n: nat)
    ensures var top := Top(tokens, n);
      && |top| == Min(n, |Distinct(tokens)|)
      && (forall i :: 0 <= i < |top| ==> top[i].0 in tokens && top[i].1 == multiset(tokens)[top[i].0] && top[i].1 >= 1)
      && (forall i, j :: 0 <= i < j < |top| ==> top[i].0 != top[j].0 && top[i].1 >= top[j].1)
      && (forall t :: t in tokens && t !in Names(top) ==>
            forall i :: 0 <= i < |top| ==> multiset(tokens)[t] <= top[i].1)
  {
    var vc := ValueCounts(tokens);
    ValueCountsSpec(tokens);
    var top := Top(tokens, n);
    assert forall i :: 0 <= i < |top| ==> top[i] == vc[i];
    forall i | 0 <= i < |top| ensures top[i].0 in tokens {
      assert Names(vc)[i] == top[i].0;
    }
    forall t | t in tokens && t !in Names(top)
      ensures forall i :: 0 <= i < |top| ==> multiset(tokens)[t] <= top[i].1
    {
      TopOmitted(tokens, n, t);
    }
  }

  /** `df["Skills"].str.split(", ").explode().value_counts().head(n)`: the
      `n` most frequent tokens (all of them when there are fewer), distinct,
      in non-increasing count order, each with its exact count, which is at
      least one and at most the number of tokens. */
  function SkillCounts(rows: seq<Row>, n: nat): (r: seq<Entry>)
    ensures |r| == Min(n, |Distinct(Explode(rows))|)
    ensures forall i :: 0 <= i < |r| ==>
      1 <= r[i].1 == multiset(Explode(rows))[r[i].0] <= TokenTotal(rows)
    ensures forall i, j :: 0 <= i < j < |r| ==> r[i].0 != r[j].0 && r[i].1 >= r[j].1
    ensures forall t :: t in Explode(rows) && t !in Names(r) ==>
      forall i :: 0 <= i < |r| ==> multiset(Explode(rows))[t] <= r[i].1
  {
    var tokens := Explode(rows);
    TopSpec(tokens, n);
    ExplodeLength(rows);
    forall t ensures multiset(tokens)[t] <= TokenTotal(rows) {
      CountAtMostLength(tokens, t);
    }
    Top(tokens, n)
  }

  // ---------------------------------------------------------------------
  // Exact location and experience filter

  predicate AtLocationAndLevelKeeps(x: Row, location: string, experience: string) {
    x.location == location && x.experience == experience
  }

  /** `df[(Location == location) & (Experience_Level == experience)]`: the
      rows with exactly that location and level, in their original order. */
  function AtLocationAndLevel(rows: seq<Row>, location: string, experience: string): (r: seq<Row>)
    ensures IsSubseq(r, rows)
    ensures forall x :: x in r <==> x in rows && AtLocationAndLevelKeeps(x, location, experience)
    ensures forall x {:trigger multiset(r)[x]} ::
      multiset(r)[x] == if AtLocationAndLevelKeeps(x, location, experience) then multiset(rows)[x] else 0
  {
    var keep := (x: Row) => AtLocationAndLevelKeeps(x, location, experience);
    FilterSpec(rows, keep);
    FilterIsSubseq(rows, keep);
    Filter(rows, keep)
  }

  /** When every row already has the chosen location and level, nothing is dropped. */
  lemma AtLocationAndLevelKeepsAll(rows: seq<Row>, location: string, experience: string)
    requires forall i :: 0 <= i < |rows| ==> AtLocationAndLevelKeeps(rows[i], location, experience)
    ensures AtLocationAndLevel(rows, location, experience) == rows
  {
    FilterKeepsAll(rows, (x: Row) => AtLocationAndLevelKeeps(x, location, experience));
  }

  // ---------------------------------------------------------------------
  // Date window

  function Posted(r: Row): int { r.posted }

  /** Rows posted between `start` and `end`, both inclusive, sorted by
      posting date: `df[(d >= start) & (d <= end)].sort_values("Date_Posted")`.
      The result is a permutation of the rows inside the window. */
  function DateRange(rows: seq<Row>, start: int, end: int): (r: seq<Row>)
    ensures SortedBy(r, Posted)
    ensures forall x :: multiset(r)[x] == if start <= x.posted <= end then multiset(rows)[x] else 0
    ensures forall x :: x in r <==> x in rows && start <= x.posted <= end
  {
    var inWindow := (x: Row) => start <= x.posted <= end;
    FilterSpec(rows, inWindow);
    SortBy(Filter(rows, inWindow), Posted)
  }
}
