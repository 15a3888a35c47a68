/**
 * `TweetProcessor` and the seed loop of `main`, as imperative code over the
 * processor's two mutable fields, each method proved to end in the state the
 * functions of `Traversal` describe.
 */
module Processor {
  import opened Seqs
  import opened Traversal

  class TweetProcessor {
    /** The reconstructed thread, appended to in place. */
    var thread: seq<string>
    /** The visited set shared by every traversal of one run. */
    var processedIds: set<Id>
    /** Each id that got past the visited guard, in order (no counterpart in the source). */
    ghost var expanded: seq<Id>

    ghost function Snapshot(): State
      reads this
    {
      State(thread, processedIds, expanded)
    }

    constructor ()
      ensures thread == [] && processedIds == {} && expanded == []
    {
      thread := [];
      processedIds := {};
      expanded := [];
    }

    /** Fetches `id` and returns its replies; a failed fetch returns none. */
    method GetReplies(src: Source, id: Id) returns (replies: seq<Reply>)
      ensures id in src ==> replies == src[id].replies
      ensures id !in src ==> replies == []
    {
      if id in src {
        replies := src[id].replies;
      } else {
        replies := [];
      }
    }

    /**
     * The loop over the examined replies of one tweet: appends the text of
     * each reply by `author` unless the thread already holds it, and queues
     * that reply's id for expansion.
     */
    method AppendKept(examined: seq<Reply>, author: UserId) returns (tasks: seq<Id>)
      modifies this
      ensures tasks == Ids(SameAuthor(examined, author))
      ensures thread == AppendNew(old(thread), Texts(SameAuthor(examined, author)))
      ensures processedIds == old(processedIds) && expanded == old(expanded)
    {
      tasks := [];
      var i := 0;
      while i < |examined|
        invariant 0 <= i <= |examined|
        invariant tasks == Ids(SameAuthor(examined[..i], author))
        invariant thread == AppendNew(old(thread), Texts(SameAuthor(examined[..i], author)))
        invariant processedIds == old(processedIds) && expanded == old(expanded)
      {
        var reply := examined[i];
        if reply.author == author {
          KeptMatch(old(thread), examined, i, author);
          if reply.text !in thread {
            thread := thread + [reply.text];
          }
          tasks := tasks + [reply.id];
        } else {
          KeptSkip(old(thread), examined, i, author);
        }
        i := i + 1;
      }
      assert examined[..i] == examined;
    }

    /**
     * Expands `id` once: marks it visited, appends the new texts of its kept
     * replies in source order, then expands each kept reply in turn.
     */
    method ProcessReplies(src: Source, id: Id)
      modifies this
      ensures Snapshot() == Expand(src, id, old(Snapshot()))
      decreases src.Keys - processedIds
    {
      if id in processedIds {
        return;
      }
      processedIds := processedIds + {id};
      expanded := expanded + [id];

      var replies := GetReplies(src, id);
      if id !in src {
        // Fetching the parent tweet raised: the branch ends here.
        return;
      }
      var parent := src[id];
      var examined := Take(replies, ReplyCap);

      var tasks := AppendKept(examined, parent.author);
      KeptDone(src, id, old(Snapshot()), examined);
      ghost var marked := Snapshot();
      var j := 0;
      while j < |tasks|
        invariant 0 <= j <= |tasks|
        invariant Snapshot() == ExpandAll(src, tasks[..j], marked)
      {
        ExpandAllSnoc(src, tasks, j, marked);
        ProcessReplies(src, tasks[j]);
        j := j + 1;
      }
      assert tasks[..j] == tasks;
    }
  }

  /**
   * The seed loop of `main`: appends the text of every hit by the target
   * display name, then runs a traversal from each of them.
   */
  method FollowTarget(processor: TweetProcessor, src: Source, hits: seq<SearchHit>)
    modifies processor
    ensures processor.Snapshot() == Seeded(src, hits, old(processor.Snapshot()))
  {
    ghost var start := processor.thread;
    var tasks: seq<Id> := [];
    var i := 0;
    while i < |hits|
      invariant 0 <= i <= |hits|
      invariant tasks == HitIds(Matches(hits[..i]))
      invariant processor.thread == start + HitTexts(Matches(hits[..i]))
      invariant processor.processedIds == old(processor.processedIds)
      invariant processor.expanded == old(processor.expanded)
    {
      var hit := hits[i];
      assert hits[..i + 1][..i] == hits[..i];
      if hit.userName == TargetUser {
        processor.thread := processor.thread + [hit.text];
        tasks := tasks + [hit.id];
      }
      i := i + 1;
    }
    assert hits[..i] == hits;

    ghost var seeded := processor.Snapshot();
    var j := 0;
    while j < |tasks|
      invariant 0 <= j <= |tasks|
      invariant processor.Snapshot() == ExpandAll(src, tasks[..j], seeded)
    {
      ExpandAllSnoc(src, tasks, j, seeded);
      processor.ProcessReplies(src, tasks[j]);
      j := j + 1;
    }
    assert tasks[..j] == tasks;
  }

  /** A reply by the parent's author: its id is queued and its text appended unless present. */
  lemma KeptMatch(start: seq<string>, rs: seq<Reply>, i: nat, author: UserId)
    requires i < |rs| && rs[i].author == author
    ensures Ids(SameAuthor(rs[..i + 1], author)) == Ids(SameAuthor(rs[..i], author)) + [rs[i].id]
    ensures AppendNew(start, Texts(SameAuthor(rs[..i + 1], author)))
      == (var u := AppendNew(start, Texts(SameAuthor(rs[..i], author)));
          if rs[i].text in u then u else u + [rs[i].text])
  {
    assert rs[..i + 1][..i] == rs[..i];
    var kept := SameAuthor(rs[..i], author);
    assert SameAuthor(rs[..i + 1], author) == kept + [rs[i]];
    assert Texts(kept + [rs[i]]) == Texts(kept) + [rs[i].text];
    assert Ids(kept + [rs[i]]) == Ids(kept) + [rs[i].id];
    var xs := Texts(kept) + [rs[i].text];
    assert xs[..|xs| - 1] == Texts(kept);
  }

  /** A reply by anyone else changes neither the queued ids nor the thread. */
  lemma KeptSkip(start: seq<string>, rs: seq<Reply>, i: nat, author: UserId)
    requires i < |rs| && rs[i].author != author
    ensures SameAuthor(rs[..i + 1], author) == SameAuthor(rs[..i], author)
  {
    assert rs[..i + 1][..i] == rs[..i];
    assert SameAuthor(rs[..i + 1], author) == SameAuthor(rs[..i], author) + [];
  }

  /** After the reply loop the state is the one `Expand` hands to the children's expansion. */
  lemma KeptDone(src: Source, id: Id, st: State, examined: seq<Reply>)
    requires id !in st.processed && id in src
    requires examined == Take(src[id].replies, ReplyCap)
    ensures Expand(src, id, st) == ExpandAll(src, Ids(SameAuthor(examined, src[id].author)),
      State(AppendNew(st.thread, Texts(SameAuthor(examined, src[id].author))),
            st.processed + {id}, st.expanded + [id]))
  {
  }

  /** Expanding one more entry of a list of children. */
  lemma ExpandAllSnoc(src: Source, ids: seq<Id>, j: nat, st: State)
    requires j < |ids|
    ensures ExpandAll(src, ids[..j + 1], st) == Expand(src, ids[j], ExpandAll(src, ids[..j], st))
  {
    assert ids[..j + 1][..j] == ids[..j];
  }
}
