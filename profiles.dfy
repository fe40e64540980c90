/** The profile groups of the debugging script: the population of answered
    rows, reduced to gender, school year and interest in technology, and
    the counts of four fixed (gender, school year) groups for two interest
    level lists. */
module Profiles {
  import opened Sheet
  import opened Evaluations

  /** A row must reach column 12, the last one the population reads. */
  const ProfileWidth: nat := 13

  /** The three answers the profile groups look at. */
  datatype Profile = Profile(gender: Cell, schoolYear: Cell, techInterest: Cell)

  const TechLevels: seq<string> := ["Muito interesse"]
  const HumanitiesLevels: seq<string> := ["Pouco interesse"]

  /** The fixed (gender, school year) groups, in reporting order. */
  const Groups: seq<(string, string)> :=
    [("Homem", "2º ano"), ("Homem", "3º ano"), ("Mulher", "2º ano"), ("Mulher", "3º ano")]

  function ProfileOf(row: Row): Profile
    requires |row| >= ProfileWidth
  {
    Profile(row[7], row[8], row[12])
  }

  /** The profiles of the rows that have an id, in row order. */
  function Population(rows: seq<Row>): seq<Profile>
    requires AllWide(rows, ProfileWidth)
  {
    if rows == [] then []
    else
      var last := rows[|rows| - 1];
      Population(rows[..|rows| - 1]) + (if last[0] != Empty then [ProfileOf(last)] else [])
  }

  /** The population loop: one profile for every data row with an id. */
  method BuildPopulation(sheet: seq<Row>) returns (pop: seq<Profile>)
    requires AllWide(DataRows(sheet), ProfileWidth)
    ensures pop == Population(DataRows(sheet))
  {
    pop := [];
    if sheet == [] {
      return;
    }
    var rows := sheet[1..];
    for i := 0 to |rows|
      invariant pop == Population(rows[..i])
    {
      assert rows[..i + 1][..i] == rows[..i];
      var row := rows[i];
      if row[0] != Empty {
        pop := pop + [Profile(row[7], row[8], row[12])];
      }
    }
    assert rows[..|rows|] == rows;
  }

  /** The population is drawn, in order, from exactly the rows that have an id. */
  lemma {:induction false} PopulationOrigin(rows: seq<Row>) returns (idx: seq<nat>)
    requires AllWide(rows, ProfileWidth)
    ensures |idx| == |Population(rows)|
    ensures forall j, k :: 0 <= j < k < |idx| ==> idx[j] < idx[k]
    ensures forall k :: 0 <= k < |idx| ==>
              idx[k] < |rows| && rows[idx[k]][0] != Empty && Population(rows)[k] == ProfileOf(rows[idx[k]])
    ensures forall i :: 0 <= i < |rows| && rows[i][0] != Empty ==> i in idx
  {
    if rows == [] {
      idx := [];
    } else {
      var init := rows[..|rows| - 1];
      var last := rows[|rows| - 1];
      var prev := PopulationOrigin(init);
      if last[0] != Empty {
        assert Population(rows) == Population(init) + [ProfileOf(last)];
        idx := prev + [|init|];
      } else {
        assert Population(rows) == Population(init);
        idx := prev;
      }
      forall k | 0 <= k < |prev|
        ensures idx[k] < |rows| && rows[idx[k]][0] != Empty && Population(rows)[k] == ProfileOf(rows[idx[k]])
      {
        assert idx[k] == prev[k] && rows[idx[k]] == init[prev[k]];
        assert Population(rows)[k] == Population(init)[k];
      }
      forall i | 0 <= i < |init| && rows[i][0] != Empty
        ensures i in idx
      {
        assert init[i] == rows[i];
      }
    }
  }

  /** The population is the unfiltered listing seen through the three profile fields. */
  lemma {:induction false} PopulationIsUnfilteredListing(rows: seq<Row>, today: Date)
    requires AllWide(rows, Width)
    ensures |Population(rows)| == |Listing(rows, NoCriteria, today)|
    ensures forall k :: 0 <= k < |Population(rows)| ==>
              var e := Listing(rows, NoCriteria, today)[k];
              Population(rows)[k] == Profile(e.gender, e.schoolYear, e.interestTechnology)
  {
    if rows != [] {
      PopulationIsUnfilteredListing(rows[..|rows| - 1], today);
    }
  }

  /** Membership test of `filter_group`: exact gender, exact school year and
      a technology interest equal to one of the levels. */
  predicate InGroup(a: Profile, gender: string, year: string, levels: seq<string>)
  {
    a.gender == Str(gender) && a.schoolYear == Str(year) && a.techInterest.Str? && a.techInterest.text in levels
  }

  /** `filter_group`: the members of the population in the group, in order. */
  function FilterGroup(pop: seq<Profile>, gender: string, year: string, levels: seq<string>): (r: seq<Profile>)
    ensures |r| <= |pop|
    ensures forall a :: a in r ==> a in pop && InGroup(a, gender, year, levels)
  {
    if pop == [] then []
    else
      var last := pop[|pop| - 1];
      FilterGroup(pop[..|pop| - 1], gender, year, levels) + (if InGroup(last, gender, year, levels) then [last] else [])
  }

  /** The positions of the population that belong to the group. */
  ghost function Members(pop: seq<Profile>, gender: string, year: string, levels: seq<string>): set<nat>
  {
    set i: nat | i < |pop| && InGroup(pop[i], gender, year, levels)
  }

  /** The group is an order-preserving sublist of the population that keeps every member. */
  lemma {:induction false} GroupOrigin(pop: seq<Profile>, gender: string, year: string, levels: seq<string>) returns (idx: seq<nat>)
    ensures Embeds(idx, FilterGroup(pop, gender, year, levels), pop)
    ensures forall i :: 0 <= i < |pop| && InGroup(pop[i], gender, year, levels) ==> i in idx
  {
    if pop == [] {
      idx := [];
    } else {
      var init := pop[..|pop| - 1];
      var last := pop[|pop| - 1];
      var prev := GroupOrigin(init, gender, year, levels);
      assert pop == init + [last];
      if InGroup(last, gender, year, levels) {
        EmbedsAppend(prev, FilterGroup(init, gender, year, levels), init, last);
        idx := prev + [|init|];
      } else {
        EmbedsExtend(prev, FilterGroup(init, gender, year, levels), init, last);
        idx := prev;
      }
      forall i | 0 <= i < |init| && InGroup(pop[i], gender, year, levels)
        ensures i in idx
      {
        assert init[i] == pop[i];
      }
    }
  }

  /** The size of a group is the number of its members in the population. */
  lemma {:induction false} GroupSize(pop: seq<Profile>, gender: string, year: string, levels: seq<string>)
    ensures |FilterGroup(pop, gender, year, levels)| == |Members(pop, gender, year, levels)|
  {
    if pop == [] {
      assert Members(pop, gender, year, levels) == {};
    } else {
      var init := pop[..|pop| - 1];
      var last := pop[|pop| - 1];
      GroupSize(init, gender, year, levels);
      assert pop == init + [last];
      MembersStep(init, last, gender, year, levels);
    }
  }

  /** Appending a profile adds its position to the members exactly when it is in the group. */
  lemma MembersStep(init: seq<Profile>, last: Profile, gender: string, year: string, levels: seq<string>)
    ensures Members(init + [last], gender, year, levels) ==
              Members(init, gender, year, levels) + (if InGroup(last, gender, year, levels) then {|init|} else {})
    ensures |init| !in Members(init, gender, year, levels)
  {
    var pop := init + [last];
    forall i: nat
      ensures i in Members(pop, gender, year, levels) <==>
                i in Members(init, gender, year, levels) + (if InGroup(last, gender, year, levels) then {|init|} else {})
    {
      if i < |init| {
        assert pop[i] == init[i];
      }
    }
  }

  /** For one (gender, school year) pair the technology and humanities groups
      share no record, since the two level lists share no value. */
  lemma BandsDisjoint(pop: seq<Profile>, gender: string, year: string)
    ensures forall a :: a in FilterGroup(pop, gender, year, TechLevels) ==> a !in FilterGroup(pop, gender, year, HumanitiesLevels)
  {
  }

  /** Different (gender, school year) pairs give groups with no record in common. */
  lemma GroupsDisjoint(pop: seq<Profile>, levels: seq<string>, j: nat, k: nat)
    requires j < k < |Groups|
    ensures forall a :: a in FilterGroup(pop, Groups[j].0, Groups[j].1, levels) ==>
              a !in FilterGroup(pop, Groups[k].0, Groups[k].1, levels)
  {
  }

  /** The sizes of the groups of `gs` added up. */
  function SumCounts(pop: seq<Profile>, gs: seq<(string, string)>, levels: seq<string>): nat
  {
    if gs == [] then 0
    else |FilterGroup(pop, gs[0].0, gs[0].1, levels)| + SumCounts(pop, gs[1..], levels)
  }

  /** How many groups of `gs` the profile belongs to. */
  function Hits(a: Profile, gs: seq<(string, string)>, levels: seq<string>): nat
  {
    if gs == [] then 0
    else (if InGroup(a, gs[0].0, gs[0].1, levels) then 1 else 0) + Hits(a, gs[1..], levels)
  }

  predicate PairwiseDistinct(gs: seq<(string, string)>)
  {
    forall j, k :: 0 <= j < k < |gs| ==> gs[j] != gs[k]
  }

  /** A profile belongs to at most one of a list of distinct groups. */
  lemma {:induction false} HitsAtMostOne(a: Profile, gs: seq<(string, string)>, levels: seq<string>)
    requires PairwiseDistinct(gs)
    ensures Hits(a, gs, levels) <= 1
  {
    if gs != [] {
      HitsAtMostOne(a, gs[1..], levels);
      if InGroup(a, gs[0].0, gs[0].1, levels) {
        NoHits(a, gs[1..], levels, gs[0]);
      }
    }
  }

  /** A profile in the group of `g` belongs to no group of `gs` that avoids `g`. */
  lemma {:induction false} NoHits(a: Profile, gs: seq<(string, string)>, levels: seq<string>, g: (string, string))
    requires InGroup(a, g.0, g.1, levels)
    requires g !in gs
    ensures Hits(a, gs, levels) == 0
  {
    if gs != [] {
      NoHits(a, gs[1..], levels, g);
    }
  }

  /** One more profile adds to the summed group sizes exactly the number of groups it belongs to. */
  lemma {:induction false} SumCountsStep(pop: seq<Profile>, a: Profile, gs: seq<(string, string)>, levels: seq<string>)
    ensures SumCounts(pop + [a], gs, levels) == SumCounts(pop, gs, levels) + Hits(a, gs, levels)
  {
    if gs != [] {
      SumCountsStep(pop, a, gs[1..], levels);
      assert (pop + [a])[..|pop + [a]| - 1] == pop;
    }
  }

  /** No group of the empty population has a member. */
  lemma {:induction false} SumCountsEmpty(gs: seq<(string, string)>, levels: seq<string>)
    ensures SumCounts([], gs, levels) == 0
  {
    if gs != [] {
      SumCountsEmpty(gs[1..], levels);
    }
  }

  /** Groups with distinct (gender, school year) pairs together count no more
      records than the population holds. */
  lemma {:induction false} SumCountsBound(pop: seq<Profile>, gs: seq<(string, string)>, levels: seq<string>)
    requires PairwiseDistinct(gs)
    ensures SumCounts(pop, gs, levels) <= |pop|
  {
    if pop == [] {
      SumCountsEmpty(gs, levels);
    } else {
      var init := pop[..|pop| - 1];
      SumCountsBound(init, gs, levels);
      SumCountsStep(init, pop[|pop| - 1], gs, levels);
      HitsAtMostOne(pop[|pop| - 1], gs, levels);
      assert init + [pop[|pop| - 1]] == pop;
    }
  }

  /** The reporting loop over the fixed groups: the size of each group for
      one level list, in the order of `Groups`. */
  method GroupCounts(pop: seq<Profile>, levels: seq<string>) returns (counts: seq<nat>)
    ensures |counts| == |Groups|
    ensures forall k :: 0 <= k < |Groups| ==> counts[k] == |Members(pop, Groups[k].0, Groups[k].1, levels)|
    ensures counts[0] + counts[1] + counts[2] + counts[3] <= |pop|
  {
    counts := [];
    for k := 0 to |Groups|
      invariant |counts| == k
      invariant forall j :: 0 <= j < k ==> counts[j] == |FilterGroup(pop, Groups[j].0, Groups[j].1, levels)|
    {
      var (g, y) := Groups[k];
      counts := counts + [|FilterGroup(pop, g, y, levels)|];
    }
    forall k | 0 <= k < |Groups|
      ensures counts[k] == |Members(pop, Groups[k].0, Groups[k].1, levels)|
    {
      GroupSize(pop, Groups[k].0, Groups[k].1, levels);
    }
    SumCountsBound(pop, Groups, levels);
    var g := Groups;
    assert SumCounts(pop, g[3..], levels) == counts[3] + SumCounts(pop, g[4..], levels);
    assert SumCounts(pop, g[2..], levels) == counts[2] + SumCounts(pop, g[3..], levels);
    assert SumCounts(pop, g[1..], levels) == counts[1] + SumCounts(pop, g[2..], levels);
    assert SumCounts(pop, g, levels) == counts[0] + SumCounts(pop, g[1..], levels);
  }

  /** The whole script: build the population, then count the groups for the
      technology levels and for the humanities levels. */
  method DebugProfiles(sheet: seq<Row>) returns (total: nat, tech: seq<nat>, humanities: seq<nat>)
    requires AllWide(DataRows(sheet), ProfileWidth)
    ensures total == |Population(DataRows(sheet))|
    ensures |tech| == |humanities| == |Groups|
    ensures forall k :: 0 <= k < |Groups| ==>
              && tech[k] == |Members(Population(DataRows(sheet)), Groups[k].0, Groups[k].1, TechLevels)|
              && humanities[k] == |Members(Population(DataRows(sheet)), Groups[k].0, Groups[k].1, HumanitiesLevels)|
    ensures tech[0] + tech[1] + tech[2] + tech[3] <= total
    ensures humanities[0] + humanities[1] + humanities[2] + humanities[3] <= total
  {
    var pop := BuildPopulation(sheet);
    total := |pop|;
    tech := GroupCounts(pop, TechLevels);
    humanities := GroupCounts(pop, HumanitiesLevels);
  }
}
