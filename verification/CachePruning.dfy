/** Cache supersession for the keys the repository's workflows write. */
module CachePruning {
  import opened Options
  import opened Caches
  import opened CacheKeys

  /** A listed entry of the same ref whose key has the same lineage and that is newer; generation and
      hashes do not matter. */
  ghost predicate Succeeds(entries: seq<Entry>, f: Entry, e: Entry, k: Key) {
    f in entries && f.ref == e.ref && Newer(f, e) && exists l :: Matches(f.key, l) && l.lineage == k.lineage
  }

  lemma SameLane(e: Entry, f: Entry, k: Key)
    requires Matches(e.key, k)
    ensures LaneOf(LineageOf, f) == LaneOf(LineageOf, e) <==>
            f.ref == e.ref && exists l :: Matches(f.key, l) && l.lineage == k.lineage
  {
    ParseInvertsFormat(e.key, k);
    ParseIsExact(f.key);
    forall l | Matches(f.key, l) ensures LineageOf(f.key) == Some(l.lineage) {
      ParseInvertsFormat(f.key, l);
    }
  }

  lemma SucceedsIsSupersedes(entries: seq<Entry>, f: Entry, e: Entry, k: Key)
    requires Matches(e.key, k)
    ensures Supersedes(LineageOf, entries, f, e) <==> Succeeds(entries, f, e, k)
  {
    SameLane(e, f, k);
  }

  /** With distinct ids, an entry is pruned if and only if its key is one of ours and a newer entry of
      its ref and lineage is listed. */
  lemma PrunedIff(entries: seq<Entry>, e: Entry)
    requires DistinctIds(entries)
    ensures Selected(LineageOf, entries, e) <==>
            e in entries && exists k :: Matches(e.key, k) && exists f :: Succeeds(entries, f, e, k)
  {
    SelectedIff(LineageOf, entries, e);
    if IsSuperseded(LineageOf, entries, e) {
      ParseIsExact(e.key);
      var k := Parse(e.key).value;
      var f :| Supersedes(LineageOf, entries, f, e);
      SucceedsIsSupersedes(entries, f, e, k);
    }
    forall k, f | e in entries && Matches(e.key, k) && Succeeds(entries, f, e, k)
      ensures IsSuperseded(LineageOf, entries, e)
    {
      ParseInvertsFormat(e.key, k);
      SucceedsIsSupersedes(entries, f, e, k);
    }
  }
}
