/** When the population of iframes ends: its worklist loop over a site that need not be finite. A node stands for a
    loaded frame, `kids` for the iframes of it that load; nodes may carry their path, so answers may differ per load. */
module FrameLoading {
  import FrameTree

  /** One turn of the loop: the last frame of the worklist is taken off and its loaded iframes are put on. */
  function Turn<T>(kids: T -> seq<T>, stack: seq<T>): seq<T>
    requires stack != []
  {
    stack[..|stack| - 1] + kids(stack[|stack| - 1])
  }

  /** The loop, started on this worklist, ends after `n` turns. */
  predicate EndsIn<T>(kids: T -> seq<T>, stack: seq<T>, n: nat)
    decreases n
  {
    if n == 0 then |stack| == 0 else |stack| > 0 && EndsIn(kids, Turn(kids, stack), n - 1)
  }

  /** No chain of frames below `x`, itself included, is longer than `depth`. */
  predicate Bounded<T>(kids: T -> seq<T>, x: T, depth: nat)
    decreases depth
  {
    depth > 0 && forall i | 0 <= i < |kids(x)| :: Bounded(kids, kids(x)[i], depth - 1)
  }

  lemma {:induction false} DeeperBound<T>(kids: T -> seq<T>, x: T, depth: nat, deeper: nat)
    requires Bounded(kids, x, depth) && depth <= deeper
    ensures Bounded(kids, x, deeper)
    decreases depth
  {
    forall i | 0 <= i < |kids(x)| ensures Bounded(kids, kids(x)[i], deeper - 1) {
      DeeperBound(kids, kids(x)[i], depth - 1, deeper - 1);
    }
  }

  /** What the loop has finished with was bounded by the number of its turns. */
  lemma {:induction false} EndedIsBounded<T>(kids: T -> seq<T>, stack: seq<T>, n: nat, i: nat)
    requires EndsIn(kids, stack, n) && i < |stack|
    ensures Bounded(kids, stack[i], n)
    decreases n
  {
    var rest, top := stack[..|stack| - 1], stack[|stack| - 1];
    var after := Turn(kids, stack);
    if i < |rest| {
      EndedIsBounded(kids, after, n - 1, i);
      assert after[i] == stack[i];
      DeeperBound(kids, stack[i], n - 1, n);
    } else {
      forall k | 0 <= k < |kids(top)| ensures Bounded(kids, kids(top)[k], n - 1) {
        EndedIsBounded(kids, after, n - 1, |rest| + k);
        assert after[|rest| + k] == kids(top)[k];
      }
    }
  }

  /** Frames of a bounded height on top of the worklist are worked off, whatever lies below them. */
  lemma {:induction false} BoundedEnds<T>(kids: T -> seq<T>, rest: seq<T>, tops: seq<T>, depth: nat, n: nat)
    returns (m: nat)
    requires EndsIn(kids, rest, n) && forall i | 0 <= i < |tops| :: Bounded(kids, tops[i], depth)
    ensures EndsIn(kids, rest + tops, m)
    decreases depth, |tops|
  {
    if tops == [] {
      assert rest + tops == rest;
      return n;
    }
    var init, top := tops[..|tops| - 1], tops[|tops| - 1];
    var below := BoundedEnds(kids, rest, init, depth, n);
    var above := BoundedEnds(kids, rest + init, kids(top), depth - 1, below);
    assert (rest + tops)[..|rest + tops| - 1] == rest + init && (rest + tops)[|rest + tops| - 1] == top;
    m := above + 1;
  }

  ghost predicate Ends<T>(kids: T -> seq<T>, page: T) {
    exists n: nat :: EndsIn(kids, [page], n)
  }

  ghost predicate NestsBoundedly<T>(kids: T -> seq<T>, page: T) {
    exists depth: nat :: Bounded(kids, page, depth)
  }

  /** The loop over a page ends if and only if there is a bound on how deep its frames nest. */
  lemma PopulationEndsIff<T>(kids: T -> seq<T>, page: T)
    ensures Ends(kids, page) <==> NestsBoundedly(kids, page)
  {
    if Ends(kids, page) {
      var n: nat :| EndsIn(kids, [page], n);
      EndedIsBounded(kids, [page], n, 0);
      assert Bounded(kids, page, n);
    }
    if NestsBoundedly(kids, page) {
      var depth: nat :| Bounded(kids, page, depth);
      assert EndsIn(kids, [], 0);
      var m := BoundedEnds(kids, [], [page], depth, 0);
      assert [] + [page] == [page] && EndsIn(kids, [page], m);
    }
  }

  /** Some iframe of the frame is one of these. */
  ghost predicate Embeds<T>(kids: T -> seq<T>, these: T -> bool, y: T) {
    exists i :: 0 <= i < |kids(y)| && these(kids(y)[i])
  }

  /** Where each of these frames embeds another one of them, their depth has no bound. */
  lemma {:induction false} NestsForEver<T(!new)>(kids: T -> seq<T>, these: T -> bool, x: T, depth: nat)
    requires these(x) && forall y | these(y) :: Embeds(kids, these, y)
    ensures !Bounded(kids, x, depth)
    decreases depth
  {
    if depth > 0 {
      assert Embeds(kids, these, x);
      var i :| 0 <= i < |kids(x)| && these(kids(x)[i]);
      NestsForEver(kids, these, kids(x)[i], depth - 1);
    }
  }

  /** The population of a page that embeds itself, at once or through others of these, never ends. */
  lemma SelfEmbeddingNeverEnds<T(!new)>(kids: T -> seq<T>, these: T -> bool, page: T)
    requires these(page) && forall y | these(y) :: Embeds(kids, these, y)
    ensures !Ends(kids, page)
  {
    PopulationEndsIff(kids, page);
    forall depth: nat ensures !Bounded(kids, page, depth) {
      NestsForEver(kids, these, page, depth);
    }
  }

  // ---------- the finite sites ----------

  function LoadedBy(d: FrameTree.Document): seq<FrameTree.Document> { FrameTree.Loaded(d.iframes) }

  lemma {:induction false} LoadedIsSmaller(iframes: seq<FrameTree.Iframe>, i: nat)
    requires i < |FrameTree.Loaded(iframes)|
    ensures FrameTree.Size(FrameTree.Loaded(iframes)[i]) <= FrameTree.SizeOfIframes(iframes)
  {
    FrameTree.LoadedSize(iframes);
    OneOfTotal(FrameTree.Loaded(iframes), i);
  }

  lemma {:induction false} OneOfTotal(docs: seq<FrameTree.Document>, i: nat)
    requires i < |docs|
    ensures FrameTree.Size(docs[i]) <= FrameTree.TotalSize(docs)
  {
    if i < |docs| - 1 {
      OneOfTotal(docs[..|docs| - 1], i);
    }
  }

  /** A tree of documents is bounded by its size. */
  lemma {:induction false} DocumentsAreBounded(d: FrameTree.Document, depth: nat)
    requires FrameTree.Size(d) <= depth
    ensures Bounded(LoadedBy, d, depth)
    decreases depth
  {
    forall i | 0 <= i < |LoadedBy(d)| ensures Bounded(LoadedBy, LoadedBy(d)[i], depth - 1) {
      LoadedIsSmaller(d.iframes, i);
      DocumentsAreBounded(LoadedBy(d)[i], depth - 1);
    }
  }

  /** What a site of bounded depth serves is such a tree of documents. */
  function Unfold<T>(kids: T -> seq<T>, url: T -> string, html: T -> string, x: T, depth: nat): FrameTree.Document
    requires Bounded(kids, x, depth)
    decreases depth
  {
    FrameTree.Document(url(x), html(x),
      seq(|kids(x)|, i requires 0 <= i < |kids(x)| =>
        assert Bounded(kids, kids(x)[i], depth - 1);
        FrameTree.Loads(Unfold(kids, url, html, kids(x)[i], depth - 1))))
  }

  lemma {:induction false} AllLoad(iframes: seq<FrameTree.Iframe>)
    requires forall i | 0 <= i < |iframes| :: iframes[i].Loads?
    ensures |FrameTree.Loaded(iframes)| == |iframes|
    ensures forall i | 0 <= i < |iframes| :: FrameTree.Loaded(iframes)[i] == iframes[i].doc
  {
    if iframes != [] {
      AllLoad(iframes[..|iframes| - 1]);
    }
  }

  /** The iframes of an unfolded page are the unfolded iframes. */
  lemma UnfoldedKids<T>(kids: T -> seq<T>, url: T -> string, html: T -> string, x: T, depth: nat)
    requires Bounded(kids, x, depth)
    ensures var d := Unfold(kids, url, html, x, depth);
            && |LoadedBy(d)| == |kids(x)|
            && forall i | 0 <= i < |kids(x)| ::
                 LoadedBy(d)[i] == Unfold(kids, url, html, kids(x)[i], depth - 1)
  {
    AllLoad(Unfold(kids, url, html, x, depth).iframes);
  }
}
