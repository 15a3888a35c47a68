# Thread reconstruction of TWTTR-BT, in Dafny

This project models the thread-reconstruction core of `main.py`.
`TweetProcessor` holds a `thread` list and a `processed_ids` visited set.
`process_replies(id)` expands one tweet. It marks the id as visited and fetches the tweet and its replies. It looks at the first 10 replies. It keeps those by the tweet's own author id, appends each kept reply's text unless the thread already contains it, and then expands every kept reply.
The seed loop of `main` appends the text of every search hit posted under the target display name, then starts a traversal from each hit.

Files:

- `seqs.dfy`, module `Seqs`: `Take` (Python's `s[:n]`), an order-preserving `Filter`, `MapSeq` and `Elems`, with lemmas about `Filter`.
- `traversal.dfy`, module `Traversal`: the data model and the specification functions.
  - The network client is frozen into `Source`, a map from tweet id to `Tweet(author, text, replies)`. An id that is not a key stands for a fetch that fails.
  - A `Reply` carries its own id, author id and text, as the reply objects of the client do.
  - `Kept` gives the replies a tweet keeps. `AppendNew` is the dedup append.
  - `Expand` and `ExpandAll` give the state after a traversal. They are mutually recursive and terminate because the set of source ids not yet visited shrinks, so they also terminate on cyclic reply graphs.
  - `Seeded` is the seed step of `main`.
- `properties.dfy`, module `Properties`: the lemmas that state what the traversal promises.
- `processor.dfy`, module `Processor`: class `TweetProcessor`, with the fields `thread` and `processedIds` and the methods `GetReplies` and `ProcessReplies`, and the seed loop `FollowTarget`. The loop over the first 10 replies (main.py:52-57) is its own method, `AppendKept`, which `ProcessReplies` calls. Each method is proved to end in exactly the state that `Expand` or `Seeded` gives.
- `scenarios.dfy`, module `Scenarios`: two concrete reply graphs. One is a two-tweet cycle. The other is a three-part thread with an off-topic reply by another author.

The children of a tweet are expanded one after another, left to right. This order is not an `asyncio` schedule: under `gather` every sibling passes the visited guard (main.py:43-45) before any of them fetches (main.py:48, 59). What carries over is the order within one tweet. The visited check-and-add (main.py:43-45) and the locked append (main.py:54-56) contain no `await`, and the child coroutines do not start before `gather` (main.py:57-59). So under `asyncio`, too, a tweet appends all its kept reply texts before any of its children is expanded. The final thread of a real run depends on network timing; the model does not claim that it equals the final thread of any particular run.

The state also records a proof-only trace, `expanded`, which has no counterpart in the source. It lists, in order, each id that got past the visited guard. It is a ghost field in the class, and it is what lets the model state "each id is expanded at most once".

Details of `main.py` that the model follows:

- Dedup is membership anywhere in `thread` (main.py:55).
- The cap of 10 applies to the raw reply list, before the author filter (main.py:52-53).
- A reply's text is appended by its parent while the parent is being expanded (main.py:56).
- Seeds are the hits whose `user.name` equals `TARGET_USER` (main.py:80). Their texts are appended without dedup (main.py:82).
- When no hit matches, nothing is appended and nothing is expanded (main.py:78-85).

## Model

| member | source | states |
|---|---|---|
| `Seqs.Take` | main.py:52 | `replies[:10]`: the result is a prefix of the list, at most 10 long; it is the whole list when that is shorter, and exactly the first 10 entries otherwise |
| `Traversal.Kept` | main.py:52-53 | a tweet keeps at most 10 replies; each comes from the first 10 entries of its reply list and has the tweet's author id; a tweet that cannot be fetched keeps none |
| `Traversal.AppendNew` | main.py:54-56 | the dedup append keeps the old thread as a prefix, and afterwards every text of the batch is in the thread |
| `Traversal.Matches` | main.py:79-80 | every seed is one of the search hits and has the target display name |
| `Traversal.Seeded` | main.py:78-85 | the seed step only adds to the visited set, and every matching hit ends up visited |
| `Traversal.Expand` | main.py:42-62 | after `process_replies(id)` the visited set has only grown and contains `id`, also when the fetch fails |
| `Traversal.ExpandAll` | main.py:57-59 | after expanding a list of children every one of them is visited and nothing was removed from the visited set |
| `Processor.TweetProcessor.constructor` | main.py:29-32 | a new processor has an empty thread and an empty visited set |
| `Processor.TweetProcessor.GetReplies` | main.py:34-40 | returns the fetched tweet's replies, or the empty list when the fetch fails |
| `Processor.TweetProcessor.AppendKept` | main.py:52-57 | the reply loop appends exactly what `AppendNew` appends for the same-author texts, queues exactly the same-author reply ids in order, and leaves the visited set alone |
| `Processor.TweetProcessor.ProcessReplies` | main.py:42-62 | the imperative loop over the first 10 replies, with the dedup append and the recursive expansion of kept replies, ends in exactly the state `Expand` gives; a visited id leaves the state unchanged |
| `Processor.FollowTarget` | main.py:78-85 | the seed loop appends every matching hit's text and then expands each match, ending in exactly the state `Seeded` gives |
| `Properties.AppendNewSpec` | main.py:54-56 | the dedup append keeps the old thread as a prefix, adds only texts from the batch that are absent from everything before them, adds at most one entry per batch text, and adds them in the order of their first occurrence in the batch |
| `Properties.ExpandGrows` | main.py:42-62 | a traversal keeps the old thread as a prefix; every entry it adds differs from all earlier entries; the visited set grows by exactly the newly expanded ids; each of those was unvisited before and is expanded once |
| `Properties.ExpandAllGrows` | main.py:57-59 | the same growth guarantees for expanding a list of children in turn |
| `Properties.ExpandKeepsDistinct` | main.py:55-56 | a thread without duplicates stays without duplicates after a traversal |
| `Properties.ExpandSound` | main.py:52-57 | the ids a traversal expands, in the order expanded, start with its root (when the root was unvisited), and each later one is a kept reply (same author, within the first 10) of one expanded before it; so every visited id is reachable from the root; every text it appends is the text of a kept reply of an id it expanded |
| `Properties.ExpandAllSound` | main.py:57-59 | for a list of children: each expanded id is one of the children or a kept reply of an id expanded before it; every appended text is the text of a kept reply of an expanded id |
| `Properties.ExpandClosed` | main.py:52-59 | for every id a traversal visits, all of its kept replies end up visited and all of their texts end up in the thread |
| `Properties.ExpandAllClosed` | main.py:57-59 | the same closure for expanding a list of children |
| `Properties.KeptSpec` | main.py:52-53 | a reply is kept iff its parent can be fetched, it sits among the first 10 entries of the reply list, and its author id equals the parent's; at most 10 replies are kept |
| `Properties.BeyondCapIgnored` | main.py:52 | a reply that occurs only at position 10 or later is not kept by its parent |
| `Properties.OtherAuthorIgnored` | main.py:53 | a reply by an author other than the parent's is not kept, and every kept reply has the parent's author id |
| `Properties.ParentAppendsFirst` | main.py:52-59 | in one node's expansion there is a cut in the final thread: before it only that node's kept texts are added, in the order of the reply list, all of them are present before it, and the children's subtrees add text only after it |
| `Properties.ExpandIdempotent` | main.py:43-44 | running `process_replies` again on the same id changes nothing |
| `Properties.RepeatedIdExpandsOnce` | main.py:43-45 | an id that comes again after it was expanded, such as a repeated search hit, changes nothing |
| `Properties.SeededSpec` | main.py:78-85 | the seed step appends the texts of all matching hits in search order, without dedup, right after the existing thread; every matching id is visited; later entries differ from everything before them, seed texts included |
| `Properties.MatchesSpec` | main.py:79-80 | a hit is a seed iff it is among the search hits and its display name equals the target name |
| `Properties.NoMatchNoChange` | main.py:78-85 | when no hit has the target display name the run leaves the processor unchanged: there is no fallback |
| `Scenarios.CycleTerminates` | main.py:42-59 | two same-author tweets that reply to each other: the traversal from one visits both exactly once and yields the two reply texts |
| `Scenarios.ThreeParts` | main.py:78-85 | a seed "1/3" with a same-author chain "2/3", "3/3" and a reply by another author gives the thread "1/3", "2/3", "3/3", and the other author's reply is never visited |

## Left out

- The network client, its login, the headers and the topic search (main.py:16-26, 64-75) are left out. The client is replaced by the `Source` map, which is fixed for the whole run. The search results are a parameter of `FollowTarget`.
- Environment loading (main.py:8-12) is left out. `load_dotenv` is called at main.py:8 but never imported: main.py:4 imports `main` from `dotenv`. So the script as written stops with a `NameError` before it reaches the modelled code. The model assumes that line works.
- The `asyncio.Lock` and task scheduling (main.py:31, 54, 57-59) are left out. Sibling subtrees are expanded left to right.
  - Under asyncio, all siblings mark themselves visited before any of them fetches. Their appends then interleave with network timing.
  - The dedup, visit-once and soundness properties are proved for the model's left-to-right order, and so is the per-node ordering, which also holds under `asyncio` as argued above. Not proved: that the final visited set and the set of thread texts are the same under every schedule.
- Printing and error messages (main.py:39, 62, 74-76, 81, 86-93) are left out. Every exception inside `process_replies` is modelled as a failed fetch of the tweet, which ends that branch.
- A `replies` field that is missing or paginated by the client is not modelled. A fetched tweet carries the full reply list the client returns.
- libs/scrape_news.py is not part of this model. It is an HTTP fetch and HTML selector extraction with no state or algorithm of its own.
