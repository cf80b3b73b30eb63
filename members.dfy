// The member directory (src/components/Members.tsx): the committee choices,
// the search and committee filter, the colour tier of an efficiency and the
// rating corrections an admin can request.
module Members {
  import opened Types
  import opened Lists
  import opened Text
  import opened Roster
  import Tasks

  /** The choice that disables the committee filter. */
  const AllCommittees: string := "All"

  /**
   * `['All', ...new Set(committees.filter(Boolean))]`: "All", then the
   * distinct non-empty committees in order of first appearance.
   */
  function Committees(members: seq<Member>): (r: seq<string>)
    ensures |r| >= 1 && r[0] == AllCommittees
    ensures forall c :: c in r[1..] <==> c != "" && exists i :: 0 <= i < |members| && members[i].committee == c
    ensures forall i, j :: 1 <= i < j < |r| ==> r[i] != r[j]
  {
    var cs := CommitteeColumn(members);
    DedupIsFirstOccurrences(NonEmpty(cs));
    forall c ensures c in cs <==> exists i :: 0 <= i < |members| && members[i].committee == c {
      if c in cs {
        var i :| 0 <= i < |cs| && cs[i] == c;
        assert members[i].committee == c;
      }
    }
    var r := [AllCommittees] + Dedup(NonEmpty(cs));
    assert r[1..] == Dedup(NonEmpty(cs));
    r
  }

  /**
   * The directory's choices after "All" are the task board's committee
   * choices: filtering before or after removing duplicates gives the same
   * list.
   */
  lemma CommitteesAgreeWithTaskBoard(members: seq<Member>)
    ensures Committees(members)[1..] == Tasks.CommitteeOptions(members)
  {
    var cs := CommitteeColumn(members);
    DedupNonEmptyCommute(cs);
    assert Committees(members)[1..] == Dedup(NonEmpty(cs));
  }

  /** The search term, ignoring case, occurs in the name or the position. */
  predicate MatchesSearch(m: Member, term: string)
  {
    Contains(Lower(m.name), Lower(term)) || Contains(Lower(m.position), Lower(term))
  }

  predicate MatchesCommittee(m: Member, selected: string)
  {
    selected == AllCommittees || m.committee == selected
  }

  predicate Shown(m: Member, term: string, selected: string)
  {
    MatchesSearch(m, term) && MatchesCommittee(m, selected)
  }

  /** `filteredMembers`: the members passing both filters, in list order. */
  function FilteredMembers(members: seq<Member>, term: string, selected: string): (r: seq<Member>)
    ensures IsSubsequence(r, members)
    ensures forall m :: m in r <==> m in members && Shown(m, term, selected)
    ensures forall m :: multiset(r)[m] == if Shown(m, term, selected) then multiset(members)[m] else 0
  {
    var r := Filter(members, m => Shown(m, term, selected));
    assert forall m :: m in r <==> m in multiset(r);
    r
  }

  /** With no search term and "All" selected, every member is listed, in order. */
  lemma NoFilterShowsAll(members: seq<Member>)
    ensures FilteredMembers(members, "", AllCommittees) == members
  {
    forall i | 0 <= i < |members| ensures Shown(members[i], "", AllCommittees) {
      ContainsEmpty(Lower(members[i].name));
    }
    FilterAll(members, m => Shown(m, "", AllCommittees));
  }

  /** Selecting a committee only narrows the list, to members of that committee. */
  lemma SelectingCommitteeNarrows(members: seq<Member>, term: string, c: string)
    ensures forall m :: m in FilteredMembers(members, term, c) ==> m in FilteredMembers(members, term, AllCommittees)
    ensures forall m :: m in FilteredMembers(members, term, c) ==> m.committee == c || c == AllCommittees
  {
  }

  /** The colour of an efficiency figure and its bar. */
  datatype Tier = Emerald | Blue | Amber

  function EfficiencyTier(efficiency: int): (t: Tier)
    ensures t == Emerald <==> efficiency >= 80
    ensures t == Blue <==> 50 <= efficiency < 80
    ensures t == Amber <==> efficiency < 50
  {
    if efficiency >= 80 then Emerald else if efficiency >= 50 then Blue else Amber
  }

  function TierRank(t: Tier): nat
  {
    match t
    case Amber => 0
    case Blue => 1
    case Emerald => 2
  }

  /** A higher efficiency never gets a lower tier. */
  lemma TierMonotone(e1: int, e2: int)
    requires e1 <= e2
    ensures TierRank(EfficiencyTier(e1)) <= TierRank(EfficiencyTier(e2))
  {
  }

  /** A rating correction an admin button requests. */
  datatype Correction = Award(memberId: string, amount: int) | Penalty(memberId: string, amount: int)

  /**
   * The correction panel: for admins, awards of 5 and 10 and penalties of 5
   * and 10 for the card's member; for everyone else, nothing.
   */
  function CorrectionActions(isAdmin: bool, m: Member): (r: seq<Correction>)
    ensures !isAdmin <==> r == []
    ensures forall c :: c in r ==> c.memberId == m.id && (c.amount == 5 || c.amount == 10)
    ensures isAdmin ==> forall amount :: amount == 5 || amount == 10 ==>
      Award(m.id, amount) in r && Penalty(m.id, amount) in r
  {
    if isAdmin then [Award(m.id, 5), Award(m.id, 10), Penalty(m.id, 5), Penalty(m.id, 10)] else []
  }
}
