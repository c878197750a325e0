/** The temple of memories: the memories of the current watch, optionally of
    one year, grouped by year and shown as one section per year, newest year
    first. */
module TempleCorridor {
  import opened Wrappers
  import Seqs

  /** A memory of the archive; captions, links and the rest of the display
      fields are left out. */
  datatype Memory = Memory(id: string, year: int, prahariId: int)

  /** `filterYear ? … : true`: the year filter is on only for a non-zero year. */
  predicate YearFilterOn(filterYear: Option<int>) {
    filterYear.Some? && filterYear.value != 0
  }

  function Keeps(currentId: int, filterYear: Option<int>): Memory -> bool {
    (m: Memory) => m.prahariId == currentId && (!YearFilterOn(filterYear) || m.year == filterYear.value)
  }

  /** `filteredMemories`: the memories of the current watch and, when the
      year filter is on, of that year. */
  function FilteredMemories(memories: seq<Memory>, currentId: int, filterYear: Option<int>): (r: seq<Memory>)
    ensures |r| <= |memories|
    ensures forall m :: m in r <==>
              m in memories && m.prahariId == currentId && (!YearFilterOn(filterYear) || m.year == filterYear.value)
  {
    Seqs.Filter(memories, Keeps(currentId, filterYear))
  }

  /** The filter keeps the order of the memory list: filtering two parts and
      joining them is filtering the whole. */
  lemma FilteredMemoriesInOrder(a: seq<Memory>, b: seq<Memory>, currentId: int, filterYear: Option<int>)
    ensures FilteredMemories(a + b, currentId, filterYear)
         == FilteredMemories(a, currentId, filterYear) + FilteredMemories(b, currentId, filterYear)
  {
    Seqs.FilterConcat(a, b, Keeps(currentId, filterYear));
  }

  /** A year filter of 0 is no year filter at all. */
  lemma YearZeroIsNoFilter(memories: seq<Memory>, currentId: int)
    ensures FilteredMemories(memories, currentId, Some(0)) == FilteredMemories(memories, currentId, None)
  {
    Seqs.FilterCongruent(memories, Keeps(currentId, Some(0)), Keeps(currentId, None));
  }

  function InYear(year: int): Memory -> bool {
    (m: Memory) => m.year == year
  }

  /** The years that occur in `s`. */
  function YearsOf(s: seq<Memory>): set<int> {
    set m | m in s :: m.year
  }

  /** What `groupedByYear` holds for the list `s`: one group per year of `s`
      with that year's memories in list order. */
  function Grouped(s: seq<Memory>): map<int, seq<Memory>> {
    map y | y in YearsOf(s) :: Seqs.Filter(s, InYear(y))
  }

  /** Every memory lands in the group of its year, a group holds only
      memories of its own year, and no group is empty. */
  lemma GroupedSpec(s: seq<Memory>)
    ensures forall m :: m in s ==> m.year in Grouped(s) && m in Grouped(s)[m.year]
    ensures forall y, m :: y in Grouped(s) && m in Grouped(s)[y] ==> m in s && m.year == y
    ensures forall y :: y in Grouped(s) ==> Grouped(s)[y] != []
  {
    var g := Grouped(s);
    forall y | y in g
      ensures g[y] != []
    {
      var m :| m in s && m.year == y;
      assert m in g[y];
    }
  }

  lemma GroupedAt(s: seq<Memory>, y: int)
    ensures y in Grouped(s) <==> y in YearsOf(s)
    ensures y in Grouped(s) ==> Grouped(s)[y] == Seqs.Filter(s, InYear(y))
  {
  }

  lemma YearsOfSnoc(p: seq<Memory>, m: Memory)
    ensures YearsOf(p + [m]) == YearsOf(p) + {m.year}
  {
    assert forall x :: x in p + [m] <==> x in p || x == m;
  }

  /** Adding one memory to the list adds it at the end of its year's group,
      opening the group if the year is new. */
  lemma GroupedSnoc(p: seq<Memory>, m: Memory)
    ensures Grouped(p + [m])
         == Grouped(p)[m.year := (if m.year in Grouped(p) then Grouped(p)[m.year] else []) + [m]]
  {
    var g, g' := Grouped(p), Grouped(p + [m]);
    var h := g[m.year := (if m.year in g then g[m.year] else []) + [m]];
    YearsOfSnoc(p, m);
    forall y
      ensures y in g' <==> y in h
      ensures y in g' ==> g'[y] == h[y]
    {
      GroupedAt(p, y);
      GroupedAt(p + [m], y);
      if y in g' {
        SnocFilter(p, m, y);
      }
    }
  }

  lemma GroupedStep(s: seq<Memory>, i: nat)
    requires i < |s|
    ensures Grouped(s[..i + 1])
         == Grouped(s[..i])[s[i].year := (if s[i].year in Grouped(s[..i]) then Grouped(s[..i])[s[i].year] else []) + [s[i]]]
  {
    assert s[..i + 1] == s[..i] + [s[i]];
    GroupedSnoc(s[..i], s[i]);
  }

  lemma SnocFilter(p: seq<Memory>, m: Memory, y: int)
    ensures Seqs.Filter(p + [m], InYear(y)) == Seqs.Filter(p, InYear(y)) + (if m.year == y then [m] else [])
    ensures y !in YearsOf(p) ==> Seqs.Filter(p, InYear(y)) == []
  {
    Seqs.FilterConcat(p, [m], InYear(y));
    assert Seqs.Filter([m], InYear(y)) == if m.year == y then [m] else [];
    if y !in YearsOf(p) {
      assert forall i :: 0 <= i < |p| ==> p[i].year != y by {
        forall i | 0 <= i < |p|
          ensures p[i].year != y
        {
          assert p[i] in p;
        }
      }
      Seqs.FilterKeepsNone(p, InYear(y));
    }
  }

  /** `groupedByYear`: walk the filtered list, opening a group for a new year
      and pushing each memory onto its year's group. */
  method GroupByYear(filtered: seq<Memory>) returns (groups: map<int, seq<Memory>>)
    ensures groups == Grouped(filtered)
  {
    groups := map[];
    assert Grouped(filtered[..0]) == map[];
    for i := 0 to |filtered|
      invariant groups == Grouped(filtered[..i])
    {
      var m := filtered[i];
      ghost var before := groups;
      if m.year !in groups {
        groups := groups[m.year := []];
      }
      groups := groups[m.year := groups[m.year] + [m]];
      assert groups == before[m.year := (if m.year in before then before[m.year] else []) + [m]];
      GroupedStep(filtered, i);
    }
    assert filtered[..|filtered|] == filtered;
  }

  /** The sections of the gallery: a year and its memories. */
  datatype Section = Section(year: int, memories: seq<Memory>)

  predicate StrictlyDescending(r: seq<int>) {
    forall i, j :: 0 <= i < j < |r| ==> r[i] > r[j]
  }

  /** Put year `y` into its place in a strictly descending list, once. */
  function InsertDescending(y: int, r: seq<int>): (r': seq<int>)
    requires StrictlyDescending(r)
    ensures StrictlyDescending(r') && forall z :: z in r' <==> z == y || z in r
  {
    if r == [] then [y]
    else if y > r[0] then [y] + r
    else if y == r[0] then r
    else
      var tail := InsertDescending(y, r[1..]);
      assert forall z :: z in tail ==> z < r[0] by {
        forall z | z in tail
          ensures z < r[0]
        {
          if z != y {
            var i :| 0 <= i < |r[1..]| && r[1..][i] == z;
            assert r[i + 1] == z;
          }
        }
      }
      assert forall j :: 0 <= j < |tail| ==> tail[j] in tail;
      [r[0]] + tail
  }

  /** `sort(([a], [b]) => Number(b) - Number(a))` on the years of the
      entries: the distinct years, latest first. */
  function DescendingYears(keys: seq<int>): (r: seq<int>)
    ensures StrictlyDescending(r) && forall y :: y in r <==> y in keys
  {
    if keys == [] then [] else InsertDescending(keys[0], DescendingYears(keys[1..]))
  }

  /** Two strictly descending lists of the same years are the same list, so
      the order in which the groups are listed does not matter. */
  lemma {:induction false} DescendingUnique(r: seq<int>, r': seq<int>)
    requires StrictlyDescending(r) && StrictlyDescending(r')
    requires forall y :: y in r <==> y in r'
    ensures r == r'
    decreases |r|
  {
    if r != [] {
      assert r[0] in r;
    }
    if r' != [] {
      assert r'[0] in r';
    }
    if r != [] {
      HeadIsLargest(r, r'[0]);
      HeadIsLargest(r', r[0]);
      var t, t' := r[1..], r'[1..];
      forall y
        ensures y in t <==> y in t'
      {
        HeadIsLargest(r, y);
        HeadIsLargest(r', y);
      }
      DescendingUnique(t, t');
      assert r == [r[0]] + t && r' == [r'[0]] + t';
    }
  }

  /** The head of a strictly descending list is its largest element and
      occurs nowhere else. */
  lemma HeadIsLargest(r: seq<int>, y: int)
    requires StrictlyDescending(r) && r != []
    ensures y in r ==> y <= r[0]
    ensures y in r[1..] <==> y in r && y < r[0]
  {
    if y in r {
      var i :| 0 <= i < |r| && r[i] == y;
    }
    if y in r[1..] {
      var i :| 0 <= i < |r[1..]| && r[1..][i] == y;
      assert r[i + 1] == y;
    }
    if y in r && y < r[0] {
      var i :| 0 <= i < |r| && r[i] == y;
      assert r[1..][i - 1] == y;
    }
  }

  /** One section per year of `ys`, in that order. */
  function SectionsOf(ys: seq<int>, groups: map<int, seq<Memory>>): (r: seq<Section>)
    requires forall i :: 0 <= i < |ys| ==> ys[i] in groups
    ensures |r| == |ys|
    ensures forall i :: 0 <= i < |r| ==> r[i] == Section(ys[i], groups[ys[i]])
  {
    if ys == [] then [] else [Section(ys[0], groups[ys[0]])] + SectionsOf(ys[1..], groups)
  }

  /** `keys` lists the years of `groups`, in any order (`Object.entries`). */
  ghost predicate ListsKeys(keys: seq<int>, groups: map<int, seq<Memory>>) {
    forall y :: y in keys <==> y in groups
  }

  /** The sections the gallery shows: one per group, latest year first. */
  function Sections(groups: map<int, seq<Memory>>, keys: seq<int>): (r: seq<Section>)
    requires ListsKeys(keys, groups)
    ensures forall i, j :: 0 <= i < j < |r| ==> r[i].year > r[j].year
    ensures forall i :: 0 <= i < |r| ==> r[i].year in groups && r[i].memories == groups[r[i].year]
  {
    var ys := DescendingYears(keys);
    assert forall i :: 0 <= i < |ys| ==> ys[i] in ys;
    SectionsOf(ys, groups)
  }

  /** Every group gets a section. */
  lemma SectionForEveryGroup(groups: map<int, seq<Memory>>, keys: seq<int>, y: int)
    requires ListsKeys(keys, groups)
    ensures y in groups <==> exists i :: 0 <= i < |Sections(groups, keys)| && Sections(groups, keys)[i].year == y
  {
    var ys := DescendingYears(keys);
    if y in groups {
      var i :| 0 <= i < |ys| && ys[i] == y;
      assert Sections(groups, keys)[i].year == y;
    }
  }

  /** The sections do not depend on the order in which the groups are listed. */
  lemma SectionsIgnoreListing(groups: map<int, seq<Memory>>, keys: seq<int>, keys': seq<int>)
    requires ListsKeys(keys, groups) && ListsKeys(keys', groups)
    ensures Sections(groups, keys) == Sections(groups, keys')
  {
    DescendingUnique(DescendingYears(keys), DescendingYears(keys'));
  }

  /** The number of memories the sections show. */
  function SectionSizes(secs: seq<Section>): nat {
    if secs == [] then 0 else |secs[0].memories| + SectionSizes(secs[1..])
  }

  /** The sections show every filtered memory once: their sizes add up to
      the count on the corridor's button. */
  lemma SectionSizesSum(filtered: seq<Memory>, keys: seq<int>)
    requires ListsKeys(keys, Grouped(filtered))
    ensures SectionSizes(Sections(Grouped(filtered), keys)) == |filtered|
  {
    var g := Grouped(filtered);
    var ys := DescendingYears(keys);
    assert forall i :: 0 <= i < |ys| ==> ys[i] in ys;
    SizesOfGroups(ys, filtered);
    forall m | m in filtered
      ensures m.year in ys
    {
      GroupedAt(filtered, m.year);
    }
    SumOverCovers(ys, filtered);
  }

  /** The sum over the years `ys` of the number of memories of `s` in each. */
  function SumOver(ys: seq<int>, s: seq<Memory>): nat {
    if ys == [] then 0 else |Seqs.Filter(s, InYear(ys[0]))| + SumOver(ys[1..], s)
  }

  lemma {:induction false} SizesOfGroups(ys: seq<int>, s: seq<Memory>)
    requires forall i :: 0 <= i < |ys| ==> ys[i] in Grouped(s)
    ensures SectionSizes(SectionsOf(ys, Grouped(s))) == SumOver(ys, s)
    decreases |ys|
  {
    if ys != [] {
      SizesOfGroups(ys[1..], s);
      assert SectionsOf(ys, Grouped(s))[1..] == SectionsOf(ys[1..], Grouped(s));
    }
  }

  /** How often `x` occurs in `ys`. */
  function Count(ys: seq<int>, x: int): nat {
    if ys == [] then 0 else (if ys[0] == x then 1 else 0) + Count(ys[1..], x)
  }

  lemma {:induction false} CountDistinct(ys: seq<int>, x: int)
    requires StrictlyDescending(ys)
    ensures Count(ys, x) == if x in ys then 1 else 0
    decreases |ys|
  {
    if ys != [] {
      CountDistinct(ys[1..], x);
      if ys[0] == x {
        assert x !in ys[1..];
      }
    }
  }

  lemma {:induction false} SumOverCons(ys: seq<int>, m: Memory, t: seq<Memory>)
    ensures SumOver(ys, [m] + t) == Count(ys, m.year) + SumOver(ys, t)
    decreases |ys|
  {
    if ys != [] {
      SumOverCons(ys[1..], m, t);
      assert ([m] + t)[1..] == t;
    }
  }

  /** Summing over distinct years that cover every memory counts each memory once. */
  lemma {:induction false} SumOverCovers(ys: seq<int>, s: seq<Memory>)
    requires StrictlyDescending(ys)
    requires forall m :: m in s ==> m.year in ys
    ensures SumOver(ys, s) == |s|
    decreases |s|
  {
    if s == [] {
      SumOverEmpty(ys);
    } else {
      var t := s[1..];
      assert s == [s[0]] + t;
      SumOverCons(ys, s[0], t);
      CountDistinct(ys, s[0].year);
      SumOverCovers(ys, t);
    }
  }

  lemma {:induction false} SumOverEmpty(ys: seq<int>)
    ensures SumOver(ys, []) == 0
    decreases |ys|
  {
    if ys != [] {
      SumOverEmpty(ys[1..]);
    }
  }
}
