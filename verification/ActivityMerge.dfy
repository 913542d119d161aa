/** Merging stored activity timelines: the latest fact of every activity, in sequence order. */
module ActivityMerge {
  import opened Outcome
  import opened ActivityTimeline
  import opened Sorting

  predicate CanonicalFact(f: Fact) {
    f.eventId != "" && (f.eventType.Thinking? || f.eventType.ModelAnalysis?) && f.activityId != "" && f.sequence > 0
  }

  /** The Map of a merge: a fact replaces its activity's earlier one unless that is later. */
  function Latest(facts: seq<Fact>): seq<Fact> {
    if facts == [] then []
    else
      var kept, f := Latest(facts[..|facts| - 1]), facts[|facts| - 1];
      var k := IndexOfActivity(kept, f.activityId);
      if k == |kept| then kept + [f]
      else if f.sequence >= kept[k].sequence then kept[k := f]
      else kept
  }

  /** A stable sort by sequence. */
  function Sort(facts: seq<Fact>): seq<Fact> {
    SortBy(facts, SequenceOf)
  }

  lemma LatestNext(facts: seq<Fact>, k: nat)
    requires k < |facts|
    ensures var kept, f := Latest(facts[..k]), facts[k];
            var i := IndexOfActivity(kept, f.activityId);
            Latest(facts[..k + 1]) ==
              if i == |kept| then kept + [f] else if f.sequence >= kept[i].sequence then kept[i := f] else kept
  {
    assert facts[..k + 1][..k] == facts[..k];
  }

  predicate AllCanonical(facts: seq<Fact>) {
    forall i :: 0 <= i < |facts| ==> CanonicalFact(facts[i])
  }

  lemma CanonicalNext(facts: seq<Fact>, k: nat)
    requires k < |facts|
    ensures AllCanonical(facts[..k + 1]) <==> AllCanonical(facts[..k]) && CanonicalFact(facts[k])
    ensures AllCanonical(facts) ==> CanonicalFact(facts[k])
  {
    var shorter, longer := facts[..k], facts[..k + 1];
    assert longer[k] == facts[k] && forall i :: 0 <= i < k ==> longer[i] == shorter[i];
  }

  /** The loop over the facts, up to the first one that is not canonical. */
  method CollectLatest(facts: seq<Fact>) returns (result: Result<seq<Fact>>)
    ensures result == if AllCanonical(facts) then Ok(Latest(facts)) else Rejected
  {
    var byIdentity: seq<Fact> := [];
    var k := 0;
    while k < |facts|
      invariant 0 <= k <= |facts|
      invariant AllCanonical(facts[..k])
      invariant byIdentity == Latest(facts[..k])
    {
      var fact := facts[k];
      CanonicalNext(facts, k);
      if !CanonicalFact(fact) {
        return Rejected;
      }
      LatestNext(facts, k);
      var at := IndexOfActivity(byIdentity, fact.activityId);
      if at == |byIdentity| {
        byIdentity := byIdentity + [fact];
      } else if fact.sequence >= byIdentity[at].sequence {
        byIdentity := byIdentity[at := fact];
      }
      k := k + 1;
    }
    assert facts[..k] == facts;
    result := Ok(byIdentity);
  }

  lemma CanonicalOnes(facts: seq<Fact>)
    ensures AllCanonical(facts) <==> forall f :: f in facts ==> CanonicalFact(f)
  {
    assert forall i :: 0 <= i < |facts| ==> facts[i] in facts;
  }

  /** `timelines.flat()` merged, or rejected at the first fact that is not canonical. */
  method MergeTimelines(facts: seq<Fact>) returns (result: Result<seq<Fact>>)
    ensures result == if (forall f :: f in facts ==> CanonicalFact(f)) then Ok(Sort(Latest(facts))) else Rejected
  {
    CanonicalOnes(facts);
    var latest :- CollectLatest(facts);
    result := Ok(Sort(latest));
  }

  /** The fact at `i` is the last of the highest sequence of its activity. */
  ghost predicate LatestAt(facts: seq<Fact>, i: nat)
    requires i < |facts|
  {
    forall j :: 0 <= j < |facts| && facts[j].activityId == facts[i].activityId ==>
      if j <= i then facts[j].sequence <= facts[i].sequence else facts[j].sequence < facts[i].sequence
  }

  ghost predicate IsLatest(f: Fact, facts: seq<Fact>) {
    exists i :: 0 <= i < |facts| && facts[i] == f && LatestAt(facts, i)
  }

  lemma LatestBounds(h: Fact, facts: seq<Fact>, g: Fact)
    requires IsLatest(h, facts) && g in facts && g.activityId == h.activityId
    ensures g.sequence <= h.sequence
  {
    var i :| 0 <= i < |facts| && facts[i] == h && LatestAt(facts, i);
    var j :| 0 <= j < |facts| && facts[j] == g;
  }

  /** A fact stays the latest past one of another activity or of a lower sequence. */
  lemma LatestStays(h: Fact, before: seq<Fact>, f: Fact)
    requires IsLatest(h, before) && (f.activityId != h.activityId || f.sequence < h.sequence)
    ensures IsLatest(h, before + [f])
  {
    var i :| 0 <= i < |before| && before[i] == h && LatestAt(before, i);
    var facts := before + [f];
    assert forall j :: 0 <= j < |before| ==> facts[j] == before[j];
    assert LatestAt(facts, i);
  }

  /** A fact none is later than becomes the latest. */
  lemma LatestAtEnd(before: seq<Fact>, f: Fact)
    requires forall g :: g in before && g.activityId == f.activityId ==> g.sequence <= f.sequence
    ensures IsLatest(f, before + [f])
  {
    var facts := before + [f];
    assert forall j :: 0 <= j < |before| ==> facts[j] == before[j] && before[j] in before;
    assert facts[|before|] == f && LatestAt(facts, |before|);
  }

  ghost predicate Covers(kept: seq<Fact>, activityId: string) {
    exists f :: f in kept && f.activityId == activityId
  }

  /** A list holds, of every activity among the facts, the last fact of the highest sequence. */
  ghost predicate Represents(kept: seq<Fact>, facts: seq<Fact>) {
    && UniqueActivities(kept)
    && (forall f :: f in kept ==> IsLatest(f, facts))
    && (forall g :: g in facts ==> Covers(kept, g.activityId))
  }

  lemma {:induction false} LatestRepresents(facts: seq<Fact>)
    requires forall f :: f in facts ==> f.activityId != ""
    ensures Represents(Latest(facts), facts)
  {
    if facts != [] {
      var before, f := facts[..|facts| - 1], facts[|facts| - 1];
      assert facts == before + [f] && f in facts;
      LatestRepresents(before);
      LatestStep(Latest(before), before, f);
    }
  }

  lemma LatestStep(kept: seq<Fact>, before: seq<Fact>, f: Fact)
    requires Represents(kept, before) && f.activityId != ""
    ensures var k := IndexOfActivity(kept, f.activityId);
            Represents(if k == |kept| then kept + [f]
                       else if f.sequence >= kept[k].sequence then kept[k := f] else kept, before + [f])
  {
    var k := IndexOfActivity(kept, f.activityId);
    if k == |kept| {
      NoSuchActivity(kept, f.activityId);
      AppendRepresents(kept, before, f);
    } else {
      ReplaceRepresents(kept, before, f, k);
    }
  }

  lemma AppendRepresents(kept: seq<Fact>, before: seq<Fact>, f: Fact)
    requires Represents(kept, before) && f.activityId != "" && forall g :: g in kept ==> g.activityId != f.activityId
    ensures Represents(kept + [f], before + [f])
  {
    var after, facts := kept + [f], before + [f];
    assert f in after;
    forall g | g in facts ensures Covers(after, g.activityId) {
      if g in before {
        assert Covers(kept, g.activityId);
        var h :| h in kept && h.activityId == g.activityId;
        assert h in after;
      }
    }
    assert forall g :: g in before ==> Covers(kept, g.activityId);
    LatestAtEnd(before, f);
    forall h | h in after ensures IsLatest(h, facts) {
      if h in kept {
        LatestStays(h, before, f);
      }
    }
  }

  lemma UpdateMembers(kept: seq<Fact>, k: nat, f: Fact, h: Fact)
    requires k < |kept| && UniqueActivities(kept) && kept[k].activityId == f.activityId != ""
    ensures h in kept[k := f] ==> h == f || (h in kept && h.activityId != f.activityId)
    ensures h in kept && h.activityId != f.activityId ==> h in kept[k := f]
  {
    var after := kept[k := f];
    if h in after {
      var i :| 0 <= i < |after| && after[i] == h;
      assert i != k ==> kept[i] == h;
    }
    if h in kept && h.activityId != f.activityId {
      var i :| 0 <= i < |kept| && kept[i] == h;
      assert after[i] == h;
    }
  }

  lemma UpdateUnique(kept: seq<Fact>, k: nat, f: Fact)
    requires k < |kept| && UniqueActivities(kept) && kept[k].activityId == f.activityId
    ensures UniqueActivities(kept[k := f])
  {
  }

  lemma ReplaceRepresents(kept: seq<Fact>, before: seq<Fact>, f: Fact, k: nat)
    requires Represents(kept, before) && f.activityId != "" && k < |kept| && kept[k].activityId == f.activityId
    ensures Represents(if f.sequence >= kept[k].sequence then kept[k := f] else kept, before + [f])
  {
    var facts := before + [f];
    var after := if f.sequence >= kept[k].sequence then kept[k := f] else kept;
    assert kept[k] in kept && after[k] in after && IsLatest(kept[k], before);
    UpdateUnique(kept, k, f);
    forall g | g in before && g.activityId == f.activityId ensures g.sequence <= kept[k].sequence {
      LatestBounds(kept[k], before, g);
    }
    if f.sequence >= kept[k].sequence {
      LatestAtEnd(before, f);
    }
    forall h | h in after ensures IsLatest(h, facts) {
      UpdateMembers(kept, k, f, h);
      if h != f && h in kept {
        OneFactEach(kept, kept[k], h);
        LatestStays(h, before, f);
      }
    }
    forall g | g in facts ensures Covers(after, g.activityId) {
      if g.activityId != f.activityId {
        assert Covers(kept, g.activityId);
        var h :| h in kept && h.activityId == g.activityId;
        UpdateMembers(kept, k, f, h);
      }
    }
  }

  lemma OneFactEach(kept: seq<Fact>, f: Fact, g: Fact)
    requires UniqueActivities(kept) && f in kept && g in kept && f.activityId != ""
    ensures f.activityId == g.activityId ==> f == g
  {
    var i :| 0 <= i < |kept| && kept[i] == f;
    var j :| 0 <= j < |kept| && kept[j] == g;
  }

  lemma SortKeeps(facts: seq<Fact>)
    ensures Sorted(Sort(facts)) && multiset(Sort(facts)) == multiset(facts)
  {
    SortSorts(facts, SequenceOf);
    var sorted := Sort(facts);
    forall i, j | 0 <= i < j < |sorted| ensures sorted[i].sequence <= sorted[j].sequence {
      assert SequenceOf(sorted[i]) <= SequenceOf(sorted[j]);
    }
  }

  lemma {:induction false} SortUnique(facts: seq<Fact>)
    requires UniqueActivities(facts)
    ensures UniqueActivities(Sort(facts))
  {
    if facts != [] {
      var before, f := facts[..|facts| - 1], facts[|facts| - 1];
      SortUnique(before);
      SortKeeps(before);
      forall i | 0 <= i < |Sort(before)| && f.activityId != "" ensures Sort(before)[i].activityId != f.activityId {
        assert Sort(before)[i] in multiset(before);
        var j :| 0 <= j < |before| && before[j] == Sort(before)[i];
        assert facts[j] == before[j];
      }
      InsertKeepsActivities(Sort(before), f);
    }
  }

  /** A merge lists, in sequence order, the latest fact of every activity. */
  lemma MergeSelectsLatest(facts: seq<Fact>)
    requires forall f :: f in facts ==> CanonicalFact(f)
    ensures Sorted(Sort(Latest(facts))) && Represents(Sort(Latest(facts)), facts)
  {
    var kept := Latest(facts);
    var sorted := Sort(kept);
    LatestRepresents(facts);
    SortKeeps(kept);
    SortUnique(kept);
    assert forall f :: (f in sorted <==> f in multiset(sorted)) && (f in kept <==> f in multiset(kept));
    forall g | g in facts ensures Covers(sorted, g.activityId) {
      assert Covers(kept, g.activityId);
      var h :| h in kept && h.activityId == g.activityId;
      assert h in sorted;
    }
    forall f | f in sorted ensures IsLatest(f, facts) {
      assert f in kept;
    }
  }

  /** A timeline reductions produced is already merged. */
  lemma MergeFixesTimelines(t: seq<Fact>)
    requires Sorted(t) && UniqueActivities(t) && forall f :: f in t ==> CanonicalFact(f)
    ensures Sort(Latest(t)) == t
  {
    LatestFixes(t);
    SortFixes(t);
  }

  lemma {:induction false} LatestFixes(t: seq<Fact>)
    requires UniqueActivities(t) && forall f :: f in t ==> f.activityId != ""
    ensures Latest(t) == t
  {
    if t != [] {
      var before, last := t[..|t| - 1], t[|t| - 1];
      assert t == before + [last];
      LatestFixes(before);
      forall f | f in before ensures f.activityId != last.activityId {
        var i :| 0 <= i < |before| && before[i] == f;
        assert t[i] == f && t[|t| - 1] == last;
      }
      NoSuchActivity(before, last.activityId);
    }
  }

  lemma InsertsLast(before: seq<Fact>, last: Fact)
    requires Sorted(before + [last])
    ensures Insert(before, last) == before + [last]
  {
    var t := before + [last];
    assert t[|before|] == last;
    if before != [] {
      assert t[|before| - 1] == before[|before| - 1];
    }
  }

  lemma {:induction false} SortFixes(t: seq<Fact>)
    requires Sorted(t)
    ensures Sort(t) == t
  {
    if t != [] {
      var n := |t| - 1;
      var before, last := t[..n], t[n];
      assert t == before + [last];
      SortFixes(before);
      InsertsLast(before, last);
    }
  }
}
