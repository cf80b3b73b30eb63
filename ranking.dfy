// The ranking table (src/components/Ranking.tsx): a copy of the member list
// sorted by efficiency, highest first, with equal efficiencies in list order
// (the sort is stable), numbered from 1, with project counts and a colour.
module Ranking {
  import opened Types
  import opened Lists

  /** Descending by efficiency. */
  predicate NonIncreasing(ms: seq<Member>)
  {
    forall i, j :: 0 <= i < j < |ms| ==> ms[i].efficiency >= ms[j].efficiency
  }

  /**
   * Places `m` into a descending list ahead of every member whose efficiency
   * is not higher, so that it stays ahead of its equals.
   */
  function Insert(m: Member, ms: seq<Member>): (r: seq<Member>)
    ensures multiset(r) == multiset(ms) + multiset{m}
    ensures |r| == |ms| + 1
  {
    if ms == [] || ms[0].efficiency <= m.efficiency then [m] + ms
    else
      assert ms == [ms[0]] + ms[1..];
      [ms[0]] + Insert(m, ms[1..])
  }

  /** `[...members].sort((a, b) => b.efficiency - a.efficiency)`, stable. */
  function SortByEfficiency(ms: seq<Member>): (r: seq<Member>)
    ensures multiset(r) == multiset(ms)
    ensures |r| == |ms|
  {
    if ms == [] then []
    else
      assert ms == [ms[0]] + ms[1..];
      Insert(ms[0], SortByEfficiency(ms[1..]))
  }

  lemma {:induction false} InsertNonIncreasing(m: Member, ms: seq<Member>)
    requires NonIncreasing(ms)
    ensures NonIncreasing(Insert(m, ms))
    ensures Insert(m, ms)[0] == m || (ms != [] && Insert(m, ms)[0] == ms[0])
  {
    if ms != [] && ms[0].efficiency > m.efficiency {
      InsertNonIncreasing(m, ms[1..]);
      var rest := Insert(m, ms[1..]);
      assert forall x :: x in rest ==> x == m || x in ms[1..] by {
        forall x | x in rest ensures x == m || x in ms[1..] {
          assert x in multiset(rest);
        }
      }
    }
  }

  /** The ranking is ordered by efficiency, highest first. */
  lemma {:induction false} SortedIsNonIncreasing(ms: seq<Member>)
    ensures NonIncreasing(SortByEfficiency(ms))
  {
    if ms != [] {
      SortedIsNonIncreasing(ms[1..]);
      InsertNonIncreasing(ms[0], SortByEfficiency(ms[1..]));
    }
  }

  /** Selects the members of one efficiency. */
  function EfficiencyIs(v: int): Member -> bool
  {
    (m: Member) => m.efficiency == v
  }

  /**
   * Inserting into a descending list keeps the relative order of every
   * efficiency group and puts the new member first in its own group.
   */
  lemma {:induction false} FilterInsert(m: Member, ms: seq<Member>, v: int)
    requires NonIncreasing(ms)
    ensures Filter(Insert(m, ms), EfficiencyIs(v)) ==
      (if m.efficiency == v then [m] else []) + Filter(ms, EfficiencyIs(v))
  {
    if ms == [] || ms[0].efficiency <= m.efficiency {
      assert Insert(m, ms) == [m] + ms;
      FilterCons(m, ms, EfficiencyIs(v));
    } else {
      FilterInsert(m, ms[1..], v);
      FilterInsertBehind(m, ms, v);
    }
  }

  /** The step of `FilterInsert` where `m` goes behind the head of the list. */
  lemma FilterInsertBehind(m: Member, ms: seq<Member>, v: int)
    requires ms != [] && ms[0].efficiency > m.efficiency
    requires Filter(Insert(m, ms[1..]), EfficiencyIs(v)) ==
      (if m.efficiency == v then [m] else []) + Filter(ms[1..], EfficiencyIs(v))
    ensures Filter(Insert(m, ms), EfficiencyIs(v)) ==
      (if m.efficiency == v then [m] else []) + Filter(ms, EfficiencyIs(v))
  {
    var p := EfficiencyIs(v);
    var rest := Insert(m, ms[1..]);
    var head := if ms[0].efficiency == v then [ms[0]] else [];
    var own := if m.efficiency == v then [m] else [];
    calc {
      Filter(Insert(m, ms), p);
      Filter([ms[0]] + rest, p);
      { FilterCons(ms[0], rest, p); }
      head + Filter(rest, p);
      head + (own + Filter(ms[1..], p));
      { SwapAroundEmpty(head, own, Filter(ms[1..], p)); } // ms[0] ranks above m
      own + (head + Filter(ms[1..], p));
      { FilterCons(ms[0], ms[1..], p); HeadTail(ms); }
      own + Filter(ms, p);
    }
  }

  lemma HeadTail<T>(xs: seq<T>)
    requires xs != []
    ensures xs == [xs[0]] + xs[1..]
  {
  }

  lemma SwapAroundEmpty<T>(a: seq<T>, b: seq<T>, c: seq<T>)
    requires a == [] || b == []
    ensures a + (b + c) == b + (a + c)
  {
    if a == [] {
      assert a + (b + c) == b + c == b + (a + c);
    } else {
      assert a + (b + c) == a + c == b + (a + c);
    }
  }

  /** Members of equal efficiency appear in the ranking in list order. */
  lemma {:induction false} SortIsStable(ms: seq<Member>, v: int)
    ensures Filter(SortByEfficiency(ms), EfficiencyIs(v)) == Filter(ms, EfficiencyIs(v))
  {
    if ms != [] {
      SortIsStable(ms[1..], v);
      SortedIsNonIncreasing(ms[1..]);
      FilterInsert(ms[0], SortByEfficiency(ms[1..]), v);
    }
  }

  /** A row of the table: its place and its member. */
  datatype Row = Row(place: nat, member: Member)

  /** `sortedMembers.map((member, index) => ... index + 1 ...)`. */
  function Rows(members: seq<Member>): (r: seq<Row>)
    ensures |r| == |members|
    ensures forall k :: 0 <= k < |r| ==> r[k].place == k + 1
    ensures forall k :: 0 <= k < |r| ==> r[k].member == SortByEfficiency(members)[k]
  {
    var sorted := SortByEfficiency(members);
    seq(|sorted|, k requires 0 <= k < |sorted| => Row(k + 1, sorted[k]))
  }

  /** The places are exactly 1..n, and a better place never has lower efficiency. */
  lemma PlacesAreRanks(members: seq<Member>, p: nat)
    ensures (exists k :: 0 <= k < |Rows(members)| && Rows(members)[k].place == p) <==> 1 <= p <= |members|
    ensures forall k, l :: 0 <= k < l < |members| ==>
      Rows(members)[k].member.efficiency >= Rows(members)[l].member.efficiency
  {
    SortedIsNonIncreasing(members);
    if 1 <= p <= |members| {
      assert Rows(members)[p - 1].place == p;
    }
  }

  predicate IsProject(a: Activity)
  {
    a.kind == ProjectKind
  }

  /** `member.activities.filter(a => a.type === 'project').length`. */
  function ProjectCount(m: Member): (n: nat)
    ensures n <= |m.activities|
    ensures n == 0 <==> forall i :: 0 <= i < |m.activities| ==> m.activities[i].kind != ProjectKind
  {
    Count(m.activities, IsProject)
  }

  /** The colour of the progress bar. */
  datatype Colour = Green | BlueBar | AmberBar

  function ProgressColour(efficiency: int): (c: Colour)
    ensures c == Green <==> efficiency > 90
    ensures c == BlueBar <==> 70 < efficiency <= 90
    ensures c == AmberBar <==> efficiency <= 70
  {
    if efficiency > 90 then Green else if efficiency > 70 then BlueBar else AmberBar
  }
}
