/**
 * The reply graph, the fetch it is read through, and the thread-reconstruction
 * traversal of `TweetProcessor.process_replies` as functions on an abstract state.
 * Children are expanded one after another, left to right, where the source
 * runs them concurrently with `asyncio.gather` (see README).
 */
module Traversal {
  import opened Seqs

  type Id = string
  type UserId = string

  /** A reply as the parent's `replies` list carries it: its own id, author id and text. */
  datatype Reply = Reply(id: Id, author: UserId, text: string)

  /** What fetching a tweet by id yields: its author id, text and replies in source order. */
  datatype Tweet = Tweet(author: UserId, text: string, replies: seq<Reply>)

  /** The network client, frozen: an id that is not a key is a fetch that fails. */
  type Source = map<Id, Tweet>

  /** One result of the topic search: the tweet id, the author's display name, the text. */
  datatype SearchHit = SearchHit(id: Id, userName: string, text: string)

  /** How many entries of a reply list are looked at (`replies[:10]`). */
  const ReplyCap: nat := 10

  /** The display name whose search hits seed the thread. */
  const TargetUser: string := "0xDarya\U{1F48E}"

  /** The replies of `rs` written by `author`, in order. */
  function SameAuthor(rs: seq<Reply>, author: UserId): seq<Reply>
  {
    Filter(rs, (r: Reply) => r.author == author)
  }

  /**
   * The replies a node keeps: among the first `ReplyCap` entries of its reply
   * list, those whose author is the node's own author. None when the node
   * cannot be fetched.
   */
  function Kept(src: Source, id: Id): (r: seq<Reply>)
    ensures |r| <= ReplyCap
    ensures forall k :: 0 <= k < |r| ==>
      id in src && r[k] in Take(src[id].replies, ReplyCap) && r[k].author == src[id].author
  {
    if id in src then
      FilterSound(Take(src[id].replies, ReplyCap), (r: Reply) => r.author == src[id].author);
      SameAuthor(Take(src[id].replies, ReplyCap), src[id].author)
    else []
  }

  function Texts(rs: seq<Reply>): seq<string>
  {
    MapSeq(rs, (r: Reply) => r.text)
  }

  function Ids(rs: seq<Reply>): seq<Id>
  {
    MapSeq(rs, (r: Reply) => r.id)
  }

  /** `child` is a reply that `parent` keeps, so the traversal follows the edge. */
  predicate Child(src: Source, parent: Id, child: Id)
  {
    child in Ids(Kept(src, parent))
  }

  /** `text` is the text of a reply that `parent` keeps, so the traversal appends it. */
  predicate KeptText(src: Source, parent: Id, text: string)
  {
    text in Texts(Kept(src, parent))
  }

  /** Appends each of `xs`, in order, unless it already occurs in the list built so far. */
  function AppendNew(thread: seq<string>, xs: seq<string>): (r: seq<string>)
    ensures thread <= r
    ensures forall x :: x in xs ==> x in r
  {
    if xs == [] then thread
    else
      var t := AppendNew(thread, xs[..|xs| - 1]);
      if xs[|xs| - 1] in t then t else t + [xs[|xs| - 1]]
  }

  /**
   * The processor's state: `thread` and `processed` are the fields of the
   * source; `expanded` records, in order, each id that got past the visited
   * guard (a proof device: it has no counterpart in the source).
   */
  datatype State = State(thread: seq<string>, processed: set<Id>, expanded: seq<Id>)

  /** The state after `process_replies(id)` has run, children included. */
  function Expand(src: Source, id: Id, st: State): (r: State)
    ensures st.processed <= r.processed && st.expanded <= r.expanded
    ensures id in r.processed
    decreases src.Keys - st.processed, 0
  {
    if id in st.processed then st
    else if id !in src then State(st.thread, st.processed + {id}, st.expanded + [id])
    else
      var kept := Kept(src, id);
      var marked := State(AppendNew(st.thread, Texts(kept)), st.processed + {id}, st.expanded + [id]);
      ExpandAll(src, Ids(kept), marked)
  }

  /** The state after expanding each of `ids` in turn. */
  function ExpandAll(src: Source, ids: seq<Id>, st: State): (r: State)
    ensures st.processed <= r.processed && st.expanded <= r.expanded
    ensures forall x :: x in ids ==> x in r.processed
    decreases src.Keys - st.processed, 1, |ids|
  {
    if ids == [] then st
    else
      var before := ExpandAll(src, ids[..|ids| - 1], st);
      Expand(src, ids[|ids| - 1], before)
  }

  /** The search hits posted under the target display name, in search order. */
  function Matches(hits: seq<SearchHit>): (r: seq<SearchHit>)
    ensures forall k :: 0 <= k < |r| ==> r[k] in hits && r[k].userName == TargetUser
  {
    FilterSound(hits, (h: SearchHit) => h.userName == TargetUser);
    Filter(hits, (h: SearchHit) => h.userName == TargetUser)
  }

  function HitTexts(hits: seq<SearchHit>): seq<string>
  {
    MapSeq(hits, (h: SearchHit) => h.text)
  }

  function HitIds(hits: seq<SearchHit>): seq<Id>
  {
    MapSeq(hits, (h: SearchHit) => h.id)
  }

  /**
   * The seed step of `main`: the texts of all matching hits are appended
   * (without dedup) before any traversal runs, then each match is expanded.
   */
  function Seeded(src: Source, hits: seq<SearchHit>, st: State): (r: State)
    ensures st.processed <= r.processed
    ensures forall k :: 0 <= k < |Matches(hits)| ==> Matches(hits)[k].id in r.processed
  {
    var m := Matches(hits);
    ExpandAll(src, HitIds(m), State(st.thread + HitTexts(m), st.processed, st.expanded))
  }
}
