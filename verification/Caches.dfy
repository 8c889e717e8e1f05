/** Which Actions cache entries a newer entry of the same lane supersedes. */
module Caches {
  import opened Options
  import opened Text
  import opened Orders

  datatype Entry = Entry(id: int, key: string, ref: string, created: string)

  /** `lineage_of`: the restore lineage of a key, if it has one. */
  type Lineage = string -> Option<string>

  type Lane = (string, string)

  function LaneOf(lineage: Lineage, e: Entry): (lane: Option<Lane>) {
    if lineage(e.key).Some? then Some((e.ref, lineage(e.key).value)) else None
  }

  /** `a` sorts after `b`: by creation time, then by id. */
  predicate Newer(a: Entry, b: Entry) {
    LexLess(CharLess, b.created, a.created) || (a.created == b.created && a.id > b.id)
  }

  /** Newer means a creation time that is larger at the first character that differs, or that goes on
      where the other ends; or the same creation time and a larger id. */
  lemma NewerIff(a: Entry, b: Entry)
    ensures Newer(a, b) <==>
            || (a.created == b.created && a.id > b.id)
            || exists k: nat :: k <= |b.created| && k < |a.created| && a.created[..k] == b.created[..k]
                                && (k == |b.created| || b.created[k] < a.created[k])
  {
    LexLessIff(CharLess, b.created, a.created);
    if LexLess(CharLess, b.created, a.created) {
      var k: nat :| DiffersAt(CharLess, b.created, a.created, k);
      assert a.created[..k] == b.created[..k];
    }
    forall k: nat | k <= |b.created| && k < |a.created| && a.created[..k] == b.created[..k]
                    && (k == |b.created| || b.created[k] < a.created[k])
      ensures LexLess(CharLess, b.created, a.created)
    {
      assert DiffersAt(CharLess, b.created, a.created, k);
    }
  }

  lemma NewerIsOrder(a: Entry, b: Entry, c: Entry)
    ensures !Newer(a, a)
    ensures Newer(a, b) && Newer(b, c) ==> Newer(a, c)
    ensures Newer(a, b) || Newer(b, a) || (a.created == b.created && a.id == b.id)
  {
    assert StrictOrder(CharLess);
    LexTotal(CharLess, a.created, b.created);
    if LexLess(CharLess, b.created, a.created) && LexLess(CharLess, c.created, b.created) {
      LexTransitive(CharLess, c.created, b.created, a.created);
    }
  }

  // ---- groups ----

  /** The entries of one lane, in listing order. */
  function Group(lineage: Lineage, entries: seq<Entry>, lane: Lane): (group: seq<Entry>) {
    if entries == [] then []
    else
      var front := Group(lineage, entries[..|entries| - 1], lane);
      if LaneOf(lineage, entries[|entries| - 1]) == Some(lane) then front + [entries[|entries| - 1]] else front
  }

  lemma {:induction false} GroupCounts(lineage: Lineage, entries: seq<Entry>, lane: Lane, e: Entry)
    ensures multiset(Group(lineage, entries, lane))[e] ==
            if LaneOf(lineage, e) == Some(lane) then multiset(entries)[e] else 0
  {
    if entries != [] {
      GroupCounts(lineage, entries[..|entries| - 1], lane, e);
      Unsnoc(entries);
    }
  }

  lemma GroupMembers(lineage: Lineage, entries: seq<Entry>, lane: Lane, e: Entry)
    ensures e in Group(lineage, entries, lane) <==> e in entries && LaneOf(lineage, e) == Some(lane)
  {
    GroupCounts(lineage, entries, lane, e);
    assert e in Group(lineage, entries, lane) <==> multiset(Group(lineage, entries, lane))[e] > 0;
    assert e in entries <==> multiset(entries)[e] > 0;
  }

  // ---- the stable descending sort ----

  /** `e` goes after every entry it is not newer than. */
  function Insert(s: seq<Entry>, e: Entry): (t: seq<Entry>) {
    if s == [] || Newer(e, s[0]) then [e] + s else [s[0]] + Insert(s[1..], e)
  }

  function SortDescending(group: seq<Entry>): (s: seq<Entry>) {
    if group == [] then [] else Insert(SortDescending(group[..|group| - 1]), group[|group| - 1])
  }

  /** The first of the newest. */
  function Top(group: seq<Entry>): (e: Entry)
    requires group != []
  {
    var last := group[|group| - 1];
    if |group| == 1 then last
    else
      var best := Top(group[..|group| - 1]);
      if Newer(last, best) then last else best
  }

  lemma {:induction false} InsertCounts(s: seq<Entry>, e: Entry)
    ensures multiset(Insert(s, e)) == multiset(s) + multiset{e}
  {
    if s != [] && !Newer(e, s[0]) {
      InsertCounts(s[1..], e);
      Uncons(s);
    }
  }

  lemma {:induction false} SortIsExact(group: seq<Entry>)
    ensures multiset(SortDescending(group)) == multiset(group)
    ensures group != [] ==> SortDescending(group) != [] && SortDescending(group)[0] == Top(group)
  {
    if group != [] {
      var front, last := group[..|group| - 1], group[|group| - 1];
      SortIsExact(front);
      InsertCounts(SortDescending(front), last);
      Unsnoc(group);
    }
  }

  lemma {:induction false} TopIsNewest(group: seq<Entry>, e: Entry)
    requires e in group
    ensures Top(group) in group && !Newer(e, Top(group))
  {
    var front, last := group[..|group| - 1], group[|group| - 1];
    Unsnoc(group);
    NewerIsOrder(last, last, last);
    if |group| > 1 {
      var best := Top(front);
      if e in front {
        TopIsNewest(front, e);
        NewerIsOrder(e, last, best);
      } else {
        TopIsNewest(front, front[0]);
      }
    }
  }

  /** Descending in time and id; of two that tie, the one listed first comes first. */
  ghost predicate Descending(s: seq<Entry>) {
    forall i, j :: 0 <= i < j < |s| ==> !Newer(s[j], s[i])
  }

  lemma PrependNewest(first: Entry, rest: seq<Entry>)
    requires Descending(rest) && forall e <- rest :: !Newer(e, first)
    ensures Descending([first] + rest)
  {
    var all := [first] + rest;
    forall i, j | 0 <= i < j < |all| ensures !Newer(all[j], all[i]) {
      assert rest[j - 1] in rest;
    }
  }

  lemma {:induction false} InsertDescends(s: seq<Entry>, e: Entry)
    requires Descending(s)
    ensures Descending(Insert(s, e))
  {
    if s == [] {
      PrependNewest(e, []);
    } else if Newer(e, s[0]) {
      forall f | f in s ensures !Newer(f, e) {
        NewerIsOrder(f, e, s[0]);
      }
      PrependNewest(e, s);
    } else {
      InsertDescends(s[1..], e);
      InsertCounts(s[1..], e);
      forall f | f in Insert(s[1..], e) ensures !Newer(f, s[0]) {
        assert f in multiset(s[1..]) + multiset{e};
      }
      PrependNewest(s[0], Insert(s[1..], e));
    }
  }

  /** The entries of one moment and id, in listing order. */
  function Ties(s: seq<Entry>, created: string, id: int): (ties: seq<Entry>) {
    if s == [] then []
    else (if s[0].created == created && s[0].id == id then [s[0]] else []) + Ties(s[1..], created, id)
  }

  lemma {:induction false} TiesOfAppend(a: seq<Entry>, b: seq<Entry>, created: string, id: int)
    ensures Ties(a + b, created, id) == Ties(a, created, id) + Ties(b, created, id)
  {
    if a == [] {
      Nil(b);
    } else {
      TailOfAppend(a, b);
      TiesOfAppend(a[1..], b, created, id);
      var first := if a[0].created == created && a[0].id == id then [a[0]] else [];
      Assoc(first, Ties(a[1..], created, id), Ties(b, created, id));
    }
  }

  lemma {:induction false} InsertKeepsTies(s: seq<Entry>, e: Entry, created: string, id: int)
    requires Descending(s)
    ensures Ties(Insert(s, e), created, id) == Ties(s, created, id) + Ties([e], created, id)
  {
    if s == [] {
      Nil([e]);
    } else if Newer(e, s[0]) {
      TiesOfAppend([e], s, created, id);
      if e.created == created && e.id == id {
        NoTies(s, e);
      }
    } else {
      InsertKeepsTies(s[1..], e, created, id);
      Cons(s[0], Insert(s[1..], e));
    }
  }

  /** Nothing in a descending list ties with an entry newer than its first. */
  lemma {:induction false} NoTies(s: seq<Entry>, e: Entry)
    requires Descending(s) && (s != [] ==> Newer(e, s[0]))
    ensures Ties(s, e.created, e.id) == []
  {
    if s != [] {
      NewerIsOrder(e, e, e);
      if |s| > 1 {
        assert !Newer(s[1], s[0]);
        NewerNotNewer(e, s[0], s[1]);
      }
      NoTies(s[1..], e);
    }
  }

  lemma NewerNotNewer(a: Entry, b: Entry, c: Entry)
    requires Newer(a, b) && !Newer(c, b)
    ensures Newer(a, c)
  {
    NewerIsOrder(b, c, a);
    NewerIsOrder(a, b, c);
  }

  /** The sort is descending and stable. */
  lemma {:induction false} SortIsStable(group: seq<Entry>, created: string, id: int)
    ensures Descending(SortDescending(group))
    ensures Ties(SortDescending(group), created, id) == Ties(group, created, id)
  {
    if group != [] {
      var front, last := group[..|group| - 1], group[|group| - 1];
      SortIsStable(front, created, id);
      InsertDescends(SortDescending(front), last);
      InsertKeepsTies(SortDescending(front), last, created, id);
      Unsnoc(group);
      TiesOfAppend(front, [last], created, id);
    }
  }

  // ---- superseded ----

  /** The lanes in order of first appearance. */
  function LanesOf(lineage: Lineage, entries: seq<Entry>): (lanes: seq<Lane>) {
    if entries == [] then []
    else
      var front := LanesOf(lineage, entries[..|entries| - 1]);
      var lane := LaneOf(lineage, entries[|entries| - 1]);
      if lane.None? || lane.value in front then front else front + [lane.value]
  }

  /** All but the newest of each lane. */
  function Doomed(lineage: Lineage, entries: seq<Entry>, lanes: seq<Lane>): (doomed: seq<Entry>) {
    if lanes == [] then []
    else
      var sorted := SortDescending(Group(lineage, entries, lanes[0]));
      (if sorted == [] then [] else sorted[1..]) + Doomed(lineage, entries, lanes[1..])
  }

  ghost predicate Survives(lineage: Lineage, entries: seq<Entry>, e: Entry) {
    LaneOf(lineage, e).Some? &&
    (var group := Group(lineage, entries, LaneOf(lineage, e).value); group != [] && Top(group) == e)
  }

  /** One listing of a lane's newest entry is spared. */
  ghost function Spared(lineage: Lineage, entries: seq<Entry>, e: Entry): (n: nat) {
    if Survives(lineage, entries, e) then 1 else 0
  }

  /** The entry is selected: some listing of it beyond the spared one. */
  ghost predicate Selected(lineage: Lineage, entries: seq<Entry>, e: Entry) {
    LaneOf(lineage, e).Some? && multiset(entries)[e] > Spared(lineage, entries, e)
  }

  lemma LaneDoomed(lineage: Lineage, entries: seq<Entry>, lane: Lane, e: Entry)
    ensures var sorted := SortDescending(Group(lineage, entries, lane));
            var n := multiset(if sorted == [] then [] else sorted[1..])[e];
            if LaneOf(lineage, e) == Some(lane) then n + Spared(lineage, entries, e) == multiset(entries)[e] else n == 0
  {
    var group := Group(lineage, entries, lane);
    var sorted := SortDescending(group);
    SortIsExact(group);
    GroupCounts(lineage, entries, lane, e);
    if sorted != [] {
      Uncons(sorted);
      assert multiset(sorted) == multiset{sorted[0]} + multiset(sorted[1..]);
      GroupMembers(lineage, entries, lane, sorted[0]);
      TopIsNewest(group, group[0]);
    } else {
      assert multiset(group)[e] == 0;
    }
  }

  lemma {:induction false} DoomedCounts(lineage: Lineage, entries: seq<Entry>, lanes: seq<Lane>, e: Entry)
    requires Distinct(lanes)
    ensures var n := multiset(Doomed(lineage, entries, lanes))[e];
            if LaneOf(lineage, e).Some? && LaneOf(lineage, e).value in lanes then
              n + Spared(lineage, entries, e) == multiset(entries)[e]
            else n == 0
  {
    if lanes != [] {
      DoomedCounts(lineage, entries, lanes[1..], e);
      LaneDoomed(lineage, entries, lanes[0], e);
      Uncons(lanes);
    }
  }

  /** A dictionary of the non-empty groups, and its lanes in order. */
  ghost predicate Filed(group: Lane -> seq<Entry>, lanes: seq<Lane>, groups: map<Lane, seq<Entry>>) {
    && Distinct(lanes)
    && (forall lane :: lane in lanes <==> lane in groups)
    && (forall lane :: lane in groups <==> group(lane) != [])
    && (forall lane <- groups :: groups[lane] == group(lane))
  }

  lemma FileNothing(was: Lane -> seq<Entry>, now: Lane -> seq<Entry>, lanes: seq<Lane>, groups: map<Lane, seq<Entry>>)
    requires Filed(was, lanes, groups) && forall lane :: now(lane) == was(lane)
    ensures Filed(now, lanes, groups)
  {
  }

  lemma FileKnown(was: Lane -> seq<Entry>, now: Lane -> seq<Entry>, lanes: seq<Lane>, groups: map<Lane, seq<Entry>>,
                  lane: Lane, e: Entry)
    requires Filed(was, lanes, groups) && lane in groups && now(lane) == was(lane) + [e]
    requires forall other :: other != lane ==> now(other) == was(other)
    ensures Filed(now, lanes, groups[lane := groups[lane] + [e]])
  {
  }

  lemma FileNew(was: Lane -> seq<Entry>, now: Lane -> seq<Entry>, lanes: seq<Lane>, groups: map<Lane, seq<Entry>>,
                lane: Lane, e: Entry)
    requires Filed(was, lanes, groups) && lane !in groups && now(lane) == was(lane) + [e]
    requires forall other :: other != lane ==> now(other) == was(other)
    ensures Filed(now, lanes + [lane], groups[lane := [e]])
  {
    assert forall i :: 0 <= i < |lanes| ==> lanes[i] in lanes;
  }

  function GroupsOf(lineage: Lineage, entries: seq<Entry>): (group: Lane -> seq<Entry>) {
    lane => Group(lineage, entries, lane)
  }

  /** The groups after the first pass: lanes in order of first appearance, each with its entries. */
  ghost predicate Grouped(lineage: Lineage, entries: seq<Entry>, lanes: seq<Lane>, groups: map<Lane, seq<Entry>>) {
    lanes == LanesOf(lineage, entries) && Filed(GroupsOf(lineage, entries), lanes, groups)
  }

  lemma GroupNext(lineage: Lineage, entries: seq<Entry>, e: Entry, lane: Lane)
    ensures Group(lineage, entries + [e], lane) ==
            Group(lineage, entries, lane) + if LaneOf(lineage, e) == Some(lane) then [e] else []
  {
    assert (entries + [e])[..|entries|] == entries;
    Nil(Group(lineage, entries, lane));
  }

  lemma LanesNext(lineage: Lineage, entries: seq<Entry>, e: Entry)
    ensures var front, lane := LanesOf(lineage, entries), LaneOf(lineage, e);
            LanesOf(lineage, entries + [e]) ==
            if lane.None? || lane.value in front then front else front + [lane.value]
  {
    assert (entries + [e])[..|entries|] == entries;
  }

  lemma GroupStep(lineage: Lineage, entries: seq<Entry>, lanes: seq<Lane>, groups: map<Lane, seq<Entry>>, e: Entry)
    requires Grouped(lineage, entries, lanes, groups)
    ensures LaneOf(lineage, e).None? ==> Grouped(lineage, entries + [e], lanes, groups)
    ensures LaneOf(lineage, e).Some? ==>
              var lane := LaneOf(lineage, e).value;
              if lane in groups then Grouped(lineage, entries + [e], lanes, groups[lane := groups[lane] + [e]])
              else Grouped(lineage, entries + [e], lanes + [lane], groups[lane := [e]])
  {
    LanesNext(lineage, entries, e);
    var was, now := GroupsOf(lineage, entries), GroupsOf(lineage, entries + [e]);
    forall lane ensures now(lane) == was(lane) + if LaneOf(lineage, e) == Some(lane) then [e] else [] {
      GroupNext(lineage, entries, e, lane);
    }
    var lane := LaneOf(lineage, e);
    if lane.None? {
      FileNothing(was, now, lanes, groups);
    } else if lane.value in groups {
      FileKnown(was, now, lanes, groups, lane.value, e);
    } else {
      FileNew(was, now, lanes, groups, lane.value, e);
    }
  }

  method GroupEntries(lineage: Lineage, entries: seq<Entry>) returns (lanes: seq<Lane>, groups: map<Lane, seq<Entry>>)
    ensures Grouped(lineage, entries, lanes, groups)
  {
    lanes, groups := [], map[];
    assert entries[..0] == [];
    for i := 0 to |entries|
      invariant Grouped(lineage, entries[..i], lanes, groups)
    {
      var e := entries[i];
      assert entries[..i] + [e] == entries[..i + 1];
      GroupStep(lineage, entries[..i], lanes, groups, e);
      var lane := LaneOf(lineage, e);
      if lane.None? {
        continue;
      }
      if lane.value in groups {
        groups := groups[lane.value := groups[lane.value] + [e]];
      } else {
        lanes, groups := lanes + [lane.value], groups[lane.value := [e]];
      }
    }
    assert entries[..|entries|] == entries;
  }

  method DoomLanes(lineage: Lineage, entries: seq<Entry>, lanes: seq<Lane>, groups: map<Lane, seq<Entry>>)
    returns (doomed: seq<Entry>)
    requires forall lane <- lanes :: lane in groups && groups[lane] != []
    requires forall lane <- lanes :: groups[lane] == Group(lineage, entries, lane)
    ensures doomed == Doomed(lineage, entries, lanes)
  {
    doomed := [];
    assert lanes[0..] == lanes;
    for i := 0 to |lanes|
      invariant doomed + Doomed(lineage, entries, lanes[i..]) == Doomed(lineage, entries, lanes)
    {
      SliceStep(lanes, i);
      var group := SortDescending(groups[lanes[i]]);
      SortIsExact(groups[lanes[i]]);
      Assoc(doomed, group[1..], Doomed(lineage, entries, lanes[i + 1..]));
      doomed := doomed + group[1..];
    }
    Nil(doomed);
  }

  lemma AllLanesDoomed(lineage: Lineage, entries: seq<Entry>, lanes: seq<Lane>, groups: map<Lane, seq<Entry>>, e: Entry)
    requires Grouped(lineage, entries, lanes, groups)
    ensures multiset(Doomed(lineage, entries, lanes))[e] + Spared(lineage, entries, e) ==
            if LaneOf(lineage, e).Some? then multiset(entries)[e] else 0
  {
    DoomedCounts(lineage, entries, lanes, e);
    if LaneOf(lineage, e).Some? {
      GroupMembers(lineage, entries, LaneOf(lineage, e).value, e);
    }
  }

  /** `superseded`: every listing of a lane's entries is selected except one of its newest; lanes come in
      order of first appearance, the entries of each as sorted. */
  method Superseded(lineage: Lineage, entries: seq<Entry>) returns (doomed: seq<Entry>)
    ensures doomed == Doomed(lineage, entries, LanesOf(lineage, entries))
    ensures forall e :: e in doomed <==> Selected(lineage, entries, e)
    ensures forall e :: multiset(doomed)[e] + Spared(lineage, entries, e) ==
                        if LaneOf(lineage, e).Some? then multiset(entries)[e] else 0
  {
    var lanes, groups := GroupEntries(lineage, entries);
    doomed := DoomLanes(lineage, entries, lanes, groups);
    forall e ensures multiset(doomed)[e] + Spared(lineage, entries, e) ==
                     if LaneOf(lineage, e).Some? then multiset(entries)[e] else 0 {
      AllLanesDoomed(lineage, entries, lanes, groups, e);
    }
    assert forall e :: e in doomed <==> multiset(doomed)[e] > 0;
  }

  // ---- what is selected ----

  /** `f` is listed, in the same lane as `e`, and newer. */
  predicate Supersedes(lineage: Lineage, entries: seq<Entry>, f: Entry, e: Entry) {
    f in entries && LaneOf(lineage, f) == LaneOf(lineage, e) && Newer(f, e)
  }

  ghost predicate IsSuperseded(lineage: Lineage, entries: seq<Entry>, e: Entry) {
    e in entries && LaneOf(lineage, e).Some? && exists f :: Supersedes(lineage, entries, f, e)
  }

  predicate DistinctIds(entries: seq<Entry>) {
    forall i, j :: 0 <= i < j < |entries| ==> entries[i].id != entries[j].id
  }

  /** The newest of a lane is listed, and no listed entry of the lane is newer. */
  lemma NewestOfLane(lineage: Lineage, entries: seq<Entry>, e: Entry)
    requires e in entries && LaneOf(lineage, e).Some?
    ensures var group := Group(lineage, entries, LaneOf(lineage, e).value);
            && group != []
            && (var top := Top(group);
                && top in entries && LaneOf(lineage, top) == LaneOf(lineage, e)
                && (forall f :: !Supersedes(lineage, entries, f, top))
                && Survives(lineage, entries, top))
  {
    var lane := LaneOf(lineage, e).value;
    var group := Group(lineage, entries, lane);
    GroupMembers(lineage, entries, lane, e);
    TopIsNewest(group, e);
    var top := Top(group);
    GroupMembers(lineage, entries, lane, top);
    forall f ensures !Supersedes(lineage, entries, f, top) {
      if f in entries && LaneOf(lineage, f) == Some(lane) {
        GroupMembers(lineage, entries, lane, f);
        TopIsNewest(group, f);
      }
    }
  }

  lemma SupersededIsSelected(lineage: Lineage, entries: seq<Entry>, e: Entry)
    requires IsSuperseded(lineage, entries, e)
    ensures Selected(lineage, entries, e) && Spared(lineage, entries, e) == 0
  {
    NewestOfLane(lineage, entries, e);
    assert multiset(entries)[e] > 0;
  }

  lemma {:induction false} DistinctIdsListOnce(entries: seq<Entry>, e: Entry)
    requires DistinctIds(entries)
    ensures multiset(entries)[e] <= 1
  {
    if entries != [] {
      DistinctIdsListOnce(entries[1..], e);
      Uncons(entries);
      FirstIsNotRepeated(entries);
    }
  }

  lemma FirstIsNotRepeated(entries: seq<Entry>)
    requires DistinctIds(entries) && entries != []
    ensures entries[0] !in entries[1..]
  {
    forall k | 0 <= k < |entries| - 1 ensures entries[1..][k] != entries[0] {
      assert entries[1..][k] == entries[k + 1];
    }
  }

  /** With distinct ids, what is selected is exactly what a newer listed entry of the same lane
      supersedes. */
  lemma SelectedIff(lineage: Lineage, entries: seq<Entry>, e: Entry)
    requires DistinctIds(entries)
    ensures Selected(lineage, entries, e) <==> IsSuperseded(lineage, entries, e)
  {
    if Selected(lineage, entries, e) {
      assert e in entries;
      DistinctIdsListOnce(entries, e);
      NewestOfLane(lineage, entries, e);
      var top := Top(Group(lineage, entries, LaneOf(lineage, e).value));
      assert top != e;
      assert !Supersedes(lineage, entries, e, top);
      NewerIsOrder(top, e, e);
      assert Supersedes(lineage, entries, top, e) by {
        var i :| 0 <= i < |entries| && entries[i] == e;
        var j :| 0 <= j < |entries| && entries[j] == top;
        assert i != j;
      }
    } else if IsSuperseded(lineage, entries, e) {
      SupersededIsSelected(lineage, entries, e);
    }
  }

  /** So the selection does not depend on the listing order. */
  lemma OrderDoesNotMatter(lineage: Lineage, entries: seq<Entry>, other: seq<Entry>, e: Entry)
    requires DistinctIds(entries) && DistinctIds(other) && Items(entries) == Items(other)
    ensures Selected(lineage, entries, e) <==> Selected(lineage, other, e)
  {
    SelectedIff(lineage, entries, e);
    SelectedIff(lineage, other, e);
    assert forall f :: f in entries <==> f in Items(entries);
    assert forall f :: f in other <==> f in Items(other);
    assert forall f :: Supersedes(lineage, entries, f, e) <==> Supersedes(lineage, other, f, e);
  }

  /** Each lane keeps exactly one entry, and it is newer than every other of the lane. */
  lemma OneSurvivor(lineage: Lineage, entries: seq<Entry>, e: Entry, f: Entry)
    requires DistinctIds(entries)
    requires e in entries && f in entries && LaneOf(lineage, e).Some? && LaneOf(lineage, f) == LaneOf(lineage, e)
    requires !Selected(lineage, entries, e)
    ensures f != e ==> Selected(lineage, entries, f) && Newer(e, f)
  {
    SelectedIff(lineage, entries, e);
    if f != e {
      NewerIsOrder(e, f, f);
      assert !Supersedes(lineage, entries, f, e);
      var i :| 0 <= i < |entries| && entries[i] == e;
      var j :| 0 <= j < |entries| && entries[j] == f;
      assert i != j;
      assert Supersedes(lineage, entries, e, f);
      SelectedIff(lineage, entries, f);
    }
  }

  lemma SomeSurvivor(lineage: Lineage, entries: seq<Entry>, e: Entry)
    requires DistinctIds(entries) && e in entries && LaneOf(lineage, e).Some?
    ensures exists s :: s in entries && LaneOf(lineage, s) == LaneOf(lineage, e) && !Selected(lineage, entries, s)
  {
    NewestOfLane(lineage, entries, e);
    var top := Top(Group(lineage, entries, LaneOf(lineage, e).value));
    DistinctIdsListOnce(entries, top);
  }

  /** Running again on what was left selects nothing. */
  lemma RerunSelectsNothing(lineage: Lineage, entries: seq<Entry>, left: seq<Entry>, e: Entry)
    requires DistinctIds(entries) && DistinctIds(left)
    requires forall x :: x in left <==> x in entries && !Selected(lineage, entries, x)
    ensures !Selected(lineage, left, e)
  {
    SelectedIff(lineage, left, e);
    if IsSuperseded(lineage, left, e) {
      var f :| Supersedes(lineage, left, f, e);
      SelectedIff(lineage, entries, e);
      assert Supersedes(lineage, entries, f, e);
    }
  }

  // ---- repeated listings ----

  /** Two listings tie for the newest of their lane. */
  ghost predicate TiesForNewest(lineage: Lineage, entries: seq<Entry>, i: nat, j: nat) {
    && i < j < |entries| && LaneOf(lineage, entries[i]).Some?
    && LaneOf(lineage, entries[j]) == LaneOf(lineage, entries[i])
    && entries[i].created == entries[j].created && entries[i].id == entries[j].id
    && !IsSuperseded(lineage, entries, entries[i])
  }

  /** Only superseded entries are selected if and only if no two listings tie for the newest of their
      lane. */
  lemma SelectionIsSafeIff(lineage: Lineage, entries: seq<Entry>)
    ensures (forall e :: Selected(lineage, entries, e) ==> IsSuperseded(lineage, entries, e)) <==>
            (forall i, j :: !TiesForNewest(lineage, entries, i, j))
  {
    forall e | Selected(lineage, entries, e) && !IsSuperseded(lineage, entries, e)
      ensures exists i, j :: TiesForNewest(lineage, entries, i, j)
    {
      SelectedTie(lineage, entries, e);
    }
    forall i, j | TiesForNewest(lineage, entries, i, j)
      ensures exists e :: Selected(lineage, entries, e) && !IsSuperseded(lineage, entries, e)
    {
      TieIsSelected(lineage, entries, i, j);
    }
  }

  lemma OneTakenOut(entries: seq<Entry>, i: nat)
    requires i < |entries|
    ensures multiset(entries) == multiset(entries[..i] + entries[i + 1..]) + multiset{entries[i]}
  {
    assert entries == entries[..i] + ([entries[i]] + entries[i + 1..]);
  }

  lemma TwoPositions(entries: seq<Entry>, e: Entry)
    requires multiset(entries)[e] >= 2
    ensures exists i, j :: 0 <= i < j < |entries| && entries[i] == e && entries[j] == e
  {
    assert e in multiset(entries);
    var i :| 0 <= i < |entries| && entries[i] == e;
    var rest := entries[..i] + entries[i + 1..];
    OneTakenOut(entries, i);
    assert e in multiset(rest);
    var k :| 0 <= k < |rest| && rest[k] == e;
    if k < i {
      assert entries[k] == e;
    } else {
      assert entries[k + 1] == e;
    }
  }

  lemma SelectedTie(lineage: Lineage, entries: seq<Entry>, e: Entry)
    requires Selected(lineage, entries, e) && !IsSuperseded(lineage, entries, e)
    ensures exists i, j :: TiesForNewest(lineage, entries, i, j)
  {
    assert e in entries;
    NewestOfLane(lineage, entries, e);
    var top := Top(Group(lineage, entries, LaneOf(lineage, e).value));
    if top == e {
      TwoPositions(entries, e);
      var i, j :| 0 <= i < j < |entries| && entries[i] == e && entries[j] == e;
      assert TiesForNewest(lineage, entries, i, j);
    } else {
      NewerIsOrder(top, e, e);
      assert !Supersedes(lineage, entries, top, e) && !Supersedes(lineage, entries, e, top);
      var i :| 0 <= i < |entries| && entries[i] == e;
      var j :| 0 <= j < |entries| && entries[j] == top;
      if i < j {
        assert TiesForNewest(lineage, entries, i, j);
      } else {
        assert TiesForNewest(lineage, entries, j, i);
      }
    }
  }

  lemma TieIsSelected(lineage: Lineage, entries: seq<Entry>, i: nat, j: nat)
    requires TiesForNewest(lineage, entries, i, j)
    ensures exists e :: Selected(lineage, entries, e) && !IsSuperseded(lineage, entries, e)
  {
    var e, f := entries[i], entries[j];
    assert forall g :: Supersedes(lineage, entries, g, f) ==> Supersedes(lineage, entries, g, e);
    assert !IsSuperseded(lineage, entries, f);
    if e == f {
      assert entries == entries[..j] + [e] + entries[j + 1..];
      assert e in entries[..j];
      assert multiset(entries)[e] >= 2;
      assert Selected(lineage, entries, e);
    } else {
      assert multiset(entries)[e] > 0 && multiset(entries)[f] > 0;
      assert Selected(lineage, entries, e) || Selected(lineage, entries, f);
    }
  }

  /** An entry listed twice, as overlapping pages of a listing can, is selected although it is its
      lane's newest. */
  lemma ListedTwice(lineage: Lineage, e: Entry)
    requires LaneOf(lineage, e).Some?
    ensures Selected(lineage, [e, e], e) && !IsSuperseded(lineage, [e, e], e)
  {
    assert multiset([e, e])[e] == 2;
    NewerIsOrder(e, e, e);
  }
}
