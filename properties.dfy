/** What the traversal and the seed step promise, proved about the functions of `Traversal`. */
module Properties {
  import opened Seqs
  import opened Traversal

  /** `u` extends `t`, and every entry added is absent from all entries before it. */
  predicate FreshAppend(t: seq<string>, u: seq<string>)
  {
    t <= u && forall k :: |t| <= k < |u| ==> u[k] !in u[..k]
  }

  /**
   * From `st` to `r` the visited set grows by exactly the ids recorded in the
   * new part of the trace, and each of those passed the guard once: it was not
   * visited before and is not recorded twice.
   */
  predicate ExpandedOnce(st: State, r: State)
  {
    st.expanded <= r.expanded
    && r.processed == st.processed + Elems(r.expanded[|st.expanded|..])
    && forall k :: |st.expanded| <= k < |r.expanded| ==>
         r.expanded[k] !in st.processed && r.expanded[k] !in r.expanded[|st.expanded|..k]
  }

  /** The only ways the state may change during a traversal. */
  predicate Grows(st: State, r: State)
  {
    FreshAppend(st.thread, r.thread) && ExpandedOnce(st, r)
  }

  /**
   * The dedup append adds each new text once, only texts of the batch, and
   * in the order in which they first occur in the batch.
   */
  lemma {:induction false} AppendNewSpec(t: seq<string>, xs: seq<string>)
    ensures FreshAppend(t, AppendNew(t, xs))
    ensures |AppendNew(t, xs)| <= |t| + |xs|
    ensures forall k :: |t| <= k < |AppendNew(t, xs)| ==> AppendNew(t, xs)[k] in xs
    ensures forall i, j :: |t| <= i < j < |AppendNew(t, xs)| ==>
      IndexOf(xs, AppendNew(t, xs)[i]) < IndexOf(xs, AppendNew(t, xs)[j])
  {
    if xs != [] {
      var init, last := xs[..|xs| - 1], xs[|xs| - 1];
      var u := AppendNew(t, init);
      AppendNewSpec(t, init);
      var r := AppendNew(t, xs);
      forall k | |t| <= k < |u|
        ensures IndexOf(xs, u[k]) == IndexOf(init, u[k]) < |init|
      {
      }
      if last !in u {
        assert last !in init;
        assert IndexOf(xs, last) == |init|;
      }
    }
  }

  lemma FreshAppendTrans(a: seq<string>, b: seq<string>, c: seq<string>)
    requires FreshAppend(a, b) && FreshAppend(b, c)
    ensures FreshAppend(a, c)
  {
  }

  lemma ExpandedOnceTrans(a: State, b: State, c: State)
    requires ExpandedOnce(a, b) && ExpandedOnce(b, c)
    ensures ExpandedOnce(a, c)
  {
  }

  lemma GrowsTrans(a: State, b: State, c: State)
    requires Grows(a, b) && Grows(b, c)
    ensures Grows(a, c)
  {
    FreshAppendTrans(a.thread, b.thread, c.thread);
    ExpandedOnceTrans(a, b, c);
  }

  lemma GrowsRefl(st: State)
    ensures Grows(st, st)
  {
  }

  /**
   * One traversal only appends texts absent from the thread so far, keeps the
   * old thread as a prefix, and expands each newly visited id exactly once.
   */
  lemma {:induction false} ExpandGrows(src: Source, id: Id, st: State)
    ensures Grows(st, Expand(src, id, st))
    decreases src.Keys - st.processed, 0
  {
    var r := Expand(src, id, st);
    if id in st.processed {
      GrowsRefl(st);
    } else {
      var kept := Kept(src, id);
      var thread := if id in src then AppendNew(st.thread, Texts(kept)) else st.thread;
      var marked := State(thread, st.processed + {id}, st.expanded + [id]);
      if id in src {
        AppendNewSpec(st.thread, Texts(kept));
      }
      assert marked.expanded[|st.expanded|..] == [id];
      assert Grows(st, marked);
      if id in src {
        ExpandAllGrows(src, Ids(kept), marked);
        GrowsTrans(st, marked, r);
      }
    }
  }

  lemma {:induction false} ExpandAllGrows(src: Source, ids: seq<Id>, st: State)
    ensures Grows(st, ExpandAll(src, ids, st))
    decreases src.Keys - st.processed, 1, |ids|
  {
    if ids == [] {
      GrowsRefl(st);
    } else {
      var before := ExpandAll(src, ids[..|ids| - 1], st);
      ExpandAllGrows(src, ids[..|ids| - 1], st);
      ExpandGrows(src, ids[|ids| - 1], before);
      GrowsTrans(st, before, ExpandAll(src, ids, st));
    }
  }

  /** Nothing is added twice: a thread without duplicates stays without duplicates. */
  lemma ExpandKeepsDistinct(src: Source, id: Id, st: State)
    requires forall i, j :: 0 <= i < j < |st.thread| ==> st.thread[i] != st.thread[j]
    ensures var r := Expand(src, id, st);
      forall i, j :: 0 <= i < j < |r.thread| ==> r.thread[i] != r.thread[j]
  {
    var r := Expand(src, id, st);
    ExpandGrows(src, id, st);
    forall i, j | 0 <= i < j < |r.thread|
      ensures r.thread[i] != r.thread[j]
    {
      if j < |st.thread| {
        assert r.thread[i] == st.thread[i] && r.thread[j] == st.thread[j];
      } else {
        assert r.thread[i] in r.thread[..j];
      }
    }
  }

  /** Entry `k` of `trace` is a kept reply of an entry before it. */
  ghost predicate ChildOfEarlier(src: Source, trace: seq<Id>, k: nat)
    requires k < |trace|
  {
    exists j :: 0 <= j < k && Child(src, trace[j], trace[k])
  }

  /** `text` is the text of a kept reply of some entry of `trace`. */
  ghost predicate TextOfTraced(src: Source, trace: seq<Id>, text: string)
  {
    exists j :: 0 <= j < |trace| && KeptText(src, trace[j], text)
  }

  lemma ChildOfEarlierShift(src: Source, a: seq<Id>, b: seq<Id>, k: nat)
    requires k < |b| && ChildOfEarlier(src, b, k)
    ensures ChildOfEarlier(src, a + b, |a| + k)
  {
    var j :| 0 <= j < k && Child(src, b[j], b[k]);
    assert (a + b)[|a| + j] == b[j] && (a + b)[|a| + k] == b[k];
  }

  lemma ChildOfEarlierPrefix(src: Source, a: seq<Id>, b: seq<Id>, k: nat)
    requires k < |a| && ChildOfEarlier(src, a, k)
    ensures ChildOfEarlier(src, a + b, k)
  {
    var j :| 0 <= j < k && Child(src, a[j], a[k]);
    assert (a + b)[j] == a[j] && (a + b)[k] == a[k];
  }

  lemma TextOfTracedAppend(src: Source, a: seq<Id>, b: seq<Id>, text: string)
    requires TextOfTraced(src, a, text) || TextOfTraced(src, b, text)
    ensures TextOfTraced(src, a + b, text)
  {
    if TextOfTraced(src, a, text) {
      var j :| 0 <= j < |a| && KeptText(src, a[j], text);
      assert (a + b)[j] == a[j];
    } else {
      var j :| 0 <= j < |b| && KeptText(src, b[j], text);
      assert (a + b)[|a| + j] == b[j];
    }
  }

  /** Every entry of `added` from position `start` on is a kept reply of an earlier entry. */
  ghost predicate LaterAreChildren(src: Source, added: seq<Id>, start: nat)
  {
    forall k {:trigger ChildOfEarlier(src, added, k)} :: start <= k < |added| ==> ChildOfEarlier(src, added, k)
  }

  /** Every entry of `added` is one of `roots` or a kept reply of an earlier entry. */
  ghost predicate FromRoots(src: Source, roots: seq<Id>, added: seq<Id>)
  {
    forall k {:trigger ChildOfEarlier(src, added, k)} :: 0 <= k < |added| ==>
      added[k] in roots || ChildOfEarlier(src, added, k)
  }

  /** Every entry of `thread` from position `start` on is the text of a kept reply of an entry of `added`. */
  ghost predicate TextsFromTrace(src: Source, added: seq<Id>, thread: seq<string>, start: nat)
  {
    forall k :: start <= k < |thread| ==> TextOfTraced(src, added, thread[k])
  }

  /**
   * What the traversal from `id` did between `st` and `r`: the ids it
   * expanded, in order, start with `id` (and there is at least one when `id`
   * was unvisited), each later one is a kept reply of one expanded before it,
   * and each text it appended is the text of a kept reply of one it expanded.
   */
  ghost predicate SoundFrom(src: Source, id: Id, st: State, r: State)
    requires st.expanded <= r.expanded
  {
    var added := r.expanded[|st.expanded|..];
    && (id !in st.processed ==> |added| > 0)
    && (|added| > 0 ==> added[0] == id)
    && LaterAreChildren(src, added, 1)
    && TextsFromTrace(src, added, r.thread, |st.thread|)
  }

  /** The same for a list of roots: each expanded id is one of them or a kept reply of an earlier one. */
  ghost predicate SoundFromAll(src: Source, ids: seq<Id>, st: State, r: State)
    requires st.expanded <= r.expanded
  {
    var added := r.expanded[|st.expanded|..];
    FromRoots(src, ids, added) && TextsFromTrace(src, added, r.thread, |st.thread|)
  }

  /**
   * Soundness: every id a traversal expands is reachable from its root along
   * kept replies, in the order expanded, and every text it appends is the text
   * of a kept reply of an id it expanded. A reply by another author, or beyond
   * the first `ReplyCap` entries, is never appended or followed through that parent.
   */
  lemma {:induction false} ExpandSound(src: Source, id: Id, st: State)
    ensures SoundFrom(src, id, st, Expand(src, id, st))
    decreases src.Keys - st.processed, 0
  {
    var r := Expand(src, id, st);
    if id !in st.processed && id !in src {
      assert r.expanded[|st.expanded|..] == [id];
    } else if id !in st.processed {
      var kept := Kept(src, id);
      var marked := State(AppendNew(st.thread, Texts(kept)), st.processed + {id}, st.expanded + [id]);
      ExpandAllSound(src, Ids(kept), marked);
      ExpandAllGrows(src, Ids(kept), marked);
      ExpandSoundStep(src, id, st, marked, r);
    }
  }

  /** The inductive step of `ExpandSound`: the root, then what its kept replies' traversals did. */
  lemma ExpandSoundStep(src: Source, id: Id, st: State, marked: State, r: State)
    requires id !in st.processed && id in src
    requires marked == State(AppendNew(st.thread, Texts(Kept(src, id))), st.processed + {id}, st.expanded + [id])
    requires marked.thread <= r.thread && marked.expanded <= r.expanded
    requires SoundFromAll(src, Ids(Kept(src, id)), marked, r)
    ensures SoundFrom(src, id, st, r)
  {
    var rest := r.expanded[|marked.expanded|..];
    assert r.expanded[|st.expanded|..] == [id] + rest;
    StepChildren(src, id, Ids(Kept(src, id)), rest);
    forall k | |st.thread| <= k < |r.thread|
      ensures TextOfTraced(src, r.expanded[|st.expanded|..], r.thread[k])
    {
      if k < |marked.thread| {
        AppendNewSpec(st.thread, Texts(Kept(src, id)));
        assert r.thread[k] == marked.thread[k];
        assert KeptText(src, [id][0], r.thread[k]);
        assert TextOfTraced(src, [id], r.thread[k]);
      }
      TextOfTracedAppend(src, [id], rest, r.thread[k]);
    }
  }

  lemma StepChildren(src: Source, id: Id, kids: seq<Id>, rest: seq<Id>)
    requires forall x :: x in kids ==> Child(src, id, x)
    requires FromRoots(src, kids, rest)
    ensures LaterAreChildren(src, [id] + rest, 1)
  {
    var added := [id] + rest;
    forall k | 0 < k < |added|
      ensures ChildOfEarlier(src, added, k)
    {
      assert added[k] == rest[k - 1];
      if rest[k - 1] in kids {
        assert Child(src, added[0], added[k]);
      } else {
        ChildOfEarlierShift(src, [id], rest, k - 1);
      }
    }
  }

  lemma {:induction false} ExpandAllSound(src: Source, ids: seq<Id>, st: State)
    ensures SoundFromAll(src, ids, st, ExpandAll(src, ids, st))
    decreases src.Keys - st.processed, 1, |ids|
  {
    if ids != [] {
      var init, last := ids[..|ids| - 1], ids[|ids| - 1];
      var before := ExpandAll(src, init, st);
      var r := ExpandAll(src, ids, st);
      assert r == Expand(src, last, before);
      ExpandAllSound(src, init, st);
      ExpandSound(src, last, before);
      ExpandGrows(src, last, before);
      ExpandAllSoundStep(src, ids, st, before, r);
    }
  }

  /** The inductive step of `ExpandAllSound`: what the earlier roots did, then what the last one did. */
  lemma ExpandAllSoundStep(src: Source, ids: seq<Id>, st: State, before: State, r: State)
    requires |ids| > 0
    requires st.expanded <= before.expanded <= r.expanded
    requires before.thread <= r.thread
    requires SoundFromAll(src, ids[..|ids| - 1], st, before)
    requires SoundFrom(src, ids[|ids| - 1], before, r)
    ensures SoundFromAll(src, ids, st, r)
  {
    var init := ids[..|ids| - 1];
    var added := r.expanded[|st.expanded|..];
    var first := before.expanded[|st.expanded|..];
    var second := r.expanded[|before.expanded|..];
    assert added == first + second;
    forall k | 0 <= k < |added| && added[k] !in ids
      ensures ChildOfEarlier(src, added, k)
    {
      if k < |first| {
        assert added[k] == first[k];
        assert first[k] !in init;
        ChildOfEarlierPrefix(src, first, second, k);
      } else {
        assert added[k] == second[k - |first|];
        ChildOfEarlierShift(src, first, second, k - |first|);
      }
    }
    forall k | |st.thread| <= k < |r.thread|
      ensures TextOfTraced(src, added, r.thread[k])
    {
      if k < |before.thread| {
        assert r.thread[k] == before.thread[k];
      }
      TextOfTracedAppend(src, first, second, r.thread[k]);
    }
  }

  /**
   * Completeness: for every id a traversal visits, all its kept replies are
   * visited (now or earlier) and all their texts are in the thread.
   */
  lemma {:induction false} ExpandClosed(src: Source, id: Id, st: State)
    ensures var r := Expand(src, id, st);
      forall y :: y in r.processed && y !in st.processed ==>
        (forall c :: Child(src, y, c) ==> c in r.processed)
        && (forall t :: KeptText(src, y, t) ==> t in r.thread)
    decreases src.Keys - st.processed, 0
  {
    var r := Expand(src, id, st);
    if id !in st.processed && id in src {
      var kept := Kept(src, id);
      var marked := State(AppendNew(st.thread, Texts(kept)), st.processed + {id}, st.expanded + [id]);
      AppendNewSpec(st.thread, Texts(kept));
      ExpandAllClosed(src, Ids(kept), marked);
      ExpandAllGrows(src, Ids(kept), marked);
      forall t | KeptText(src, id, t)
        ensures t in r.thread
      {
        var k :| 0 <= k < |marked.thread| && marked.thread[k] == t;
        assert r.thread[k] == t;
      }
    }
  }

  lemma {:induction false} ExpandAllClosed(src: Source, ids: seq<Id>, st: State)
    ensures var r := ExpandAll(src, ids, st);
      forall y :: y in r.processed && y !in st.processed ==>
        (forall c :: Child(src, y, c) ==> c in r.processed)
        && (forall t :: KeptText(src, y, t) ==> t in r.thread)
    decreases src.Keys - st.processed, 1, |ids|
  {
    if ids != [] {
      var init, last := ids[..|ids| - 1], ids[|ids| - 1];
      var before := ExpandAll(src, init, st);
      var r := ExpandAll(src, ids, st);
      ExpandAllClosed(src, init, st);
      ExpandClosed(src, last, before);
      ExpandGrows(src, last, before);
      forall y, t | y in before.processed && y !in st.processed && KeptText(src, y, t)
        ensures t in r.thread
      {
        var k :| 0 <= k < |before.thread| && before.thread[k] == t;
        assert r.thread[k] == t;
      }
    }
  }

  /**
   * A reply is kept by `id` exactly when `id` can be fetched, the reply sits
   * among the first `ReplyCap` entries of its reply list, and it has the same
   * author id as `id`. At most `ReplyCap` replies are kept.
   */
  lemma KeptSpec(src: Source, id: Id, rep: Reply)
    ensures |Kept(src, id)| <= ReplyCap
    ensures rep in Kept(src, id) <==>
      id in src && rep.author == src[id].author &&
      exists j :: 0 <= j < |src[id].replies| && j < ReplyCap && src[id].replies[j] == rep
  {
    if id in src {
      var examined := Take(src[id].replies, ReplyCap);
      FilterMember(examined, (r: Reply) => r.author == src[id].author, rep);
      if rep in examined {
        var j :| 0 <= j < |examined| && examined[j] == rep;
        assert src[id].replies[j] == rep;
      }
    }
  }

  /** A reply found only at position `ReplyCap` or later is ignored by its parent. */
  lemma BeyondCapIgnored(src: Source, id: Id, j: nat)
    requires id in src && ReplyCap <= j < |src[id].replies|
    requires src[id].replies[j] !in src[id].replies[..ReplyCap]
    ensures src[id].replies[j] !in Kept(src, id)
  {
    var rep := src[id].replies[j];
    KeptSpec(src, id, rep);
    forall i | 0 <= i < ReplyCap
      ensures src[id].replies[i] != rep
    {
      assert src[id].replies[..ReplyCap][i] == src[id].replies[i];
    }
  }

  /** A reply by an author other than the parent's is ignored by the parent. */
  lemma OtherAuthorIgnored(src: Source, id: Id, rep: Reply)
    requires id in src && rep.author != src[id].author
    ensures rep !in Kept(src, id)
    ensures forall k :: 0 <= k < |Kept(src, id)| ==> Kept(src, id)[k].author == src[id].author
  {
    KeptSpec(src, id, rep);
    forall k | 0 <= k < |Kept(src, id)|
      ensures Kept(src, id)[k].author == src[id].author
    {
      KeptSpec(src, id, Kept(src, id)[k]);
    }
  }

  /**
   * Within one node's expansion its kept reply texts come first: there is a
   * cut `m` in the final thread before which only the node's own kept texts
   * were added, in source order, and all of them are present before it; the
   * replies' own subtrees add text only after `m`.
   */
  ghost predicate OwnTextsBefore(src: Source, id: Id, start: nat, thread: seq<string>, m: nat)
  {
    start <= m <= start + |Kept(src, id)| && m <= |thread|
    && (forall t :: KeptText(src, id, t) ==> t in thread[..m])
    && (forall k :: start <= k < m ==> KeptText(src, id, thread[k]))
    && (forall i, j :: start <= i < j < m ==>
          KeptText(src, id, thread[i]) && KeptText(src, id, thread[j])
          && IndexOf(Texts(Kept(src, id)), thread[i]) < IndexOf(Texts(Kept(src, id)), thread[j]))
  }

  lemma ParentAppendsFirst(src: Source, id: Id, st: State)
    requires id !in st.processed && id in src
    ensures exists m :: OwnTextsBefore(src, id, |st.thread|, Expand(src, id, st).thread, m)
  {
    var r := Expand(src, id, st);
    var kept := Kept(src, id);
    var marked := State(AppendNew(st.thread, Texts(kept)), st.processed + {id}, st.expanded + [id]);
    ExpandAllGrows(src, Ids(kept), marked);
    assert r == ExpandAll(src, Ids(kept), marked);
    OwnTextsPrefix(src, id, st.thread, marked.thread, r.thread);
  }

  /** The node's own appends, followed by anything, still form the cut of `ParentAppendsFirst`. */
  lemma OwnTextsPrefix(src: Source, id: Id, start: seq<string>, marked: seq<string>, thread: seq<string>)
    requires marked == AppendNew(start, Texts(Kept(src, id))) && marked <= thread
    ensures OwnTextsBefore(src, id, |start|, thread, |marked|)
  {
    OwnTextsPresent(src, id, start, marked, thread);
    OwnTextsOrdered(src, id, start, marked, thread);
  }

  /** Every kept text lies before the cut, and there are at most as many entries as kept replies. */
  lemma OwnTextsPresent(src: Source, id: Id, start: seq<string>, marked: seq<string>, thread: seq<string>)
    requires marked == AppendNew(start, Texts(Kept(src, id))) && marked <= thread
    ensures |start| <= |marked| <= |start| + |Kept(src, id)| && |marked| <= |thread|
    ensures forall t :: KeptText(src, id, t) ==> t in thread[..|marked|]
  {
    AppendNewSpec(start, Texts(Kept(src, id)));
    assert thread[..|marked|] == marked;
  }

  /** Before the cut, after the old thread, there are only kept texts, in their order among the replies. */
  lemma OwnTextsOrdered(src: Source, id: Id, start: seq<string>, marked: seq<string>, thread: seq<string>)
    requires marked == AppendNew(start, Texts(Kept(src, id))) && marked <= thread
    ensures forall k :: |start| <= k < |marked| ==> KeptText(src, id, thread[k])
    ensures forall i, j :: |start| <= i < j < |marked| ==>
      KeptText(src, id, thread[i]) && KeptText(src, id, thread[j])
      && IndexOf(Texts(Kept(src, id)), thread[i]) < IndexOf(Texts(Kept(src, id)), thread[j])
  {
    AppendNewSpec(start, Texts(Kept(src, id)));
    assert forall k :: |start| <= k < |marked| ==> thread[k] == marked[k];
  }

  /** Running the traversal again from the same id changes nothing. */
  lemma ExpandIdempotent(src: Source, id: Id, st: State)
    ensures Expand(src, id, Expand(src, id, st)) == Expand(src, id, st)
  {
  }

  /**
   * The seed step appends every matching hit's text, in search order and
   * without dedup, right after the existing thread, and every matching id
   * ends up visited.
   */
  lemma SeededSpec(src: Source, hits: seq<SearchHit>, st: State)
    ensures var r := Seeded(src, hits, st);
      var m := Matches(hits);
      && |st.thread| + |m| <= |r.thread|
      && r.thread[..|st.thread| + |m|] == st.thread + HitTexts(m)
      && (forall h :: h in m ==> h.id in r.processed)
      && FreshAppend(st.thread + HitTexts(m), r.thread)
  {
    var m := Matches(hits);
    var seeded := State(st.thread + HitTexts(m), st.processed, st.expanded);
    ExpandAllGrows(src, HitIds(m), seeded);
    forall h | h in m
      ensures h.id in Seeded(src, hits, st).processed
    {
      var k :| 0 <= k < |m| && m[k] == h;
      assert HitIds(m)[k] == h.id;
    }
  }

  /** An id listed again after it was expanded, as a repeated search hit is, changes nothing. */
  lemma RepeatedIdExpandsOnce(src: Source, ids: seq<Id>, x: Id, st: State)
    requires x in ids
    ensures ExpandAll(src, ids + [x], st) == ExpandAll(src, ids, st)
  {
    assert (ids + [x])[..|ids|] == ids;
  }

  /** A hit is a seed exactly when it is a search hit by the target display name. */
  lemma MatchesSpec(hits: seq<SearchHit>, h: SearchHit)
    ensures h in Matches(hits) <==> h in hits && h.userName == TargetUser
  {
    FilterMember(hits, (x: SearchHit) => x.userName == TargetUser, h);
  }

  /** When no hit is by the target display name, the seed step changes nothing. */
  lemma NoMatchNoChange(src: Source, hits: seq<SearchHit>, st: State)
    requires forall k :: 0 <= k < |hits| ==> hits[k].userName != TargetUser
    ensures Seeded(src, hits, st) == st
  {
    FilterNone(hits, (x: SearchHit) => x.userName == TargetUser);
    assert st.thread + [] == st.thread;
  }
}
