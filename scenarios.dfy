/** Concrete reply graphs whose traversal result is proved. */
module Scenarios {
  import opened Traversal

  /** One step of the traversal from an unvisited id that can be fetched. */
  lemma ExpandStep(src: Source, id: Id, st: State, kept: seq<Reply>)
    requires id !in st.processed && id in src && Kept(src, id) == kept
    ensures Expand(src, id, st)
      == ExpandAll(src, Ids(kept), State(AppendNew(st.thread, Texts(kept)), st.processed + {id}, st.expanded + [id]))
  {
  }

  lemma ExpandAllOne(src: Source, id: Id, st: State)
    ensures ExpandAll(src, [id], st) == Expand(src, id, st)
  {
    assert [id][..0] == [];
  }

  lemma Singleton(id: Id, author: UserId, text: string)
    ensures Texts([Reply(id, author, text)]) == [text]
    ensures Ids([Reply(id, author, text)]) == [id]
  {
  }

  /**
   * Two tweets by one author that reply to each other: the traversal stops
   * because each id passes the visited guard once.
   */
  function Cycle(): Source
  {
    map["a" := Tweet("u", "one", [Reply("b", "u", "two")]),
        "b" := Tweet("u", "two", [Reply("a", "u", "one")])]
  }

  lemma CycleKept()
    ensures Kept(Cycle(), "a") == [Reply("b", "u", "two")]
    ensures Kept(Cycle(), "b") == [Reply("a", "u", "one")]
  {
  }

  /** Expanding "b" once "a" is visited appends "one" and stops at the edge back to "a". */
  lemma CycleSecondStep()
    ensures Expand(Cycle(), "b", State(["two"], {"a"}, ["a"])) == State(["two", "one"], {"a", "b"}, ["a", "b"])
  {
    var src := Cycle();
    var mid := State(["two"], {"a"}, ["a"]);
    var done := State(["two", "one"], {"a", "b"}, ["a", "b"]);
    CycleKept();
    Singleton("a", "u", "one");
    assert AppendNew(["two"], ["one"]) == ["two", "one"];
    assert {"a"} + {"b"} == {"a", "b"} && ["a"] + ["b"] == ["a", "b"];
    ExpandAllOne(src, "a", done);
    ExpandStep(src, "b", mid, [Reply("a", "u", "one")]);
  }

  lemma CycleTerminates()
    ensures Expand(Cycle(), "a", State([], {}, [])) == State(["two", "one"], {"a", "b"}, ["a", "b"])
  {
    var src := Cycle();
    var start, mid := State([], {}, []), State(["two"], {"a"}, ["a"]);
    CycleKept();
    Singleton("b", "u", "two");
    assert AppendNew([], ["two"]) == ["two"];
    assert {} + {"a"} == {"a"} && [] + ["a"] == ["a"];
    CycleSecondStep();
    ExpandAllOne(src, "b", mid);
    ExpandStep(src, "a", start, [Reply("b", "u", "two")]);
  }

  /**
   * A seed "1/3" by the target whose same-author reply "2/3" has a same-author
   * reply "3/3" and a reply by someone else: the thread is the three parts in
   * order, and the other author's reply is never visited.
   */
  function ThreePartSource(): Source
  {
    map["r" := Tweet("A", "1/3", [Reply("s", "A", "2/3")]),
        "s" := Tweet("A", "2/3", [Reply("t", "A", "3/3"), Reply("o", "B", "off-topic")]),
        "t" := Tweet("A", "3/3", []),
        "o" := Tweet("B", "off-topic", [])]
  }

  lemma ThreePartKept()
    ensures Kept(ThreePartSource(), "r") == [Reply("s", "A", "2/3")]
    ensures Kept(ThreePartSource(), "s") == [Reply("t", "A", "3/3")]
    ensures Kept(ThreePartSource(), "t") == []
  {
    var sReplies := [Reply("t", "A", "3/3"), Reply("o", "B", "off-topic")];
    assert sReplies[..1] == [Reply("t", "A", "3/3")];
  }

  /** The leaf "3/3" has no replies: expanding it only marks it. */
  lemma ThreePartLeaf()
    ensures Expand(ThreePartSource(), "t", State(["1/3", "2/3", "3/3"], {"r", "s"}, ["r", "s"]))
      == State(["1/3", "2/3", "3/3"], {"r", "s", "t"}, ["r", "s", "t"])
  {
    var src := ThreePartSource();
    var atT := State(["1/3", "2/3", "3/3"], {"r", "s"}, ["r", "s"]);
    ThreePartKept();
    assert Ids([]) == [] && Texts([]) == [];
    assert AppendNew(atT.thread, []) == atT.thread;
    assert {"r", "s"} + {"t"} == {"r", "s", "t"} && ["r", "s"] + ["t"] == ["r", "s", "t"];
    ExpandStep(src, "t", atT, []);
  }

  /** "2/3" appends "3/3" and expands the leaf, skipping the off-topic reply. */
  lemma ThreePartMiddle()
    ensures Expand(ThreePartSource(), "s", State(["1/3", "2/3"], {"r"}, ["r"]))
      == State(["1/3", "2/3", "3/3"], {"r", "s", "t"}, ["r", "s", "t"])
  {
    var src := ThreePartSource();
    var atS := State(["1/3", "2/3"], {"r"}, ["r"]);
    var atT := State(["1/3", "2/3", "3/3"], {"r", "s"}, ["r", "s"]);
    ThreePartKept();
    Singleton("t", "A", "3/3");
    assert AppendNew(["1/3", "2/3"], ["3/3"]) == ["1/3", "2/3", "3/3"];
    assert {"r"} + {"s"} == {"r", "s"} && ["r"] + ["s"] == ["r", "s"];
    ThreePartLeaf();
    ExpandAllOne(src, "t", atT);
    ExpandStep(src, "s", atS, [Reply("t", "A", "3/3")]);
  }

  /** The seed "1/3" appends "2/3" and expands it. */
  lemma ThreePartRoot()
    ensures Expand(ThreePartSource(), "r", State(["1/3"], {}, []))
      == State(["1/3", "2/3", "3/3"], {"r", "s", "t"}, ["r", "s", "t"])
  {
    var src := ThreePartSource();
    var atR := State(["1/3"], {}, []);
    var atS := State(["1/3", "2/3"], {"r"}, ["r"]);
    ThreePartKept();
    Singleton("s", "A", "2/3");
    assert AppendNew(["1/3"], ["2/3"]) == ["1/3", "2/3"];
    assert {} + {"r"} == {"r"} && [] + ["r"] == ["r"];
    ThreePartMiddle();
    ExpandAllOne(src, "s", atS);
    ExpandStep(src, "r", atR, [Reply("s", "A", "2/3")]);
  }

  lemma ThreeParts()
    ensures var r := Seeded(ThreePartSource(), [SearchHit("r", TargetUser, "1/3")], State([], {}, []));
      r.thread == ["1/3", "2/3", "3/3"] && "o" !in r.processed
  {
    var src := ThreePartSource();
    var hits := [SearchHit("r", TargetUser, "1/3")];
    var atR := State(["1/3"], {}, []);
    assert hits == [] + [hits[0]];
    assert Matches(hits) == hits;
    assert HitTexts(hits) == ["1/3"] && HitIds(hits) == ["r"];
    assert [] + ["1/3"] == ["1/3"];
    ThreePartRoot();
    ExpandAllOne(src, "r", atR);
  }
}
