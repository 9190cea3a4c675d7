/** The frame tree of a page: finding and attaching frames by id, and populating iframes. Frames are values here;
    a page holds its root frame in a field. */
module FrameTree {
  import opened Text

  /** A parsed document with the outcome of each of its iframes: the document it loads, or nothing. */
  datatype Document = Document(url: string, html: string, iframes: seq<Iframe>)
  datatype Iframe = Loads(doc: Document) | Fails

  datatype Frame = Frame(id: nat, doc: Document, children: seq<Frame>, domVersion: nat)

  // ---------- finding and attaching ----------

  function FindById(f: Frame, t: nat): Option<Frame>
    decreases f
  {
    if f.id == t then Some(f) else FindAmong(f.children, t)
  }

  function FindAmong(fs: seq<Frame>, t: nat): Option<Frame>
    decreases fs
  {
    if fs == [] then None
    else if FindById(fs[0], t).Some? then FindById(fs[0], t)
    else FindAmong(fs[1..], t)
  }

  function AddChild(f: Frame, c: Frame): Frame {
    f.(children := f.children + [c], domVersion := f.domVersion + 1)
  }

  /** `find_mut_by_id(t)` followed by `add_child(c)` on what it found. */
  function Attach(f: Frame, t: nat, c: Frame): Frame
    decreases f
  {
    if f.id == t then AddChild(f, c) else f.(children := AttachAmong(f.children, t, c))
  }

  function AttachAmong(fs: seq<Frame>, t: nat, c: Frame): seq<Frame>
    decreases fs
  {
    if fs == [] then []
    else if FindById(fs[0], t).Some? then [Attach(fs[0], t, c)] + fs[1..]
    else [fs[0]] + AttachAmong(fs[1..], t, c)
  }

  /** The ids of a frame and its descendants, with multiplicity. */
  function Ids(f: Frame): multiset<nat>
    decreases f
  {
    multiset{f.id} + IdsAmong(f.children)
  }

  function IdsAmong(fs: seq<Frame>): multiset<nat>
    decreases fs
  {
    if fs == [] then multiset{} else Ids(fs[0]) + IdsAmong(fs[1..])
  }

  ghost predicate UniqueIds(ids: multiset<nat>) { forall x :: ids[x] <= 1 }

  lemma {:induction false} FoundIffListed(f: Frame, t: nat)
    ensures FindById(f, t).Some? <==> t in Ids(f)
    ensures FindById(f, t).Some? ==> FindById(f, t).value.id == t
    decreases f
  {
    FoundAmongIffListed(f.children, t);
  }

  lemma {:induction false} FoundAmongIffListed(fs: seq<Frame>, t: nat)
    ensures FindAmong(fs, t).Some? <==> t in IdsAmong(fs)
    ensures FindAmong(fs, t).Some? ==> FindAmong(fs, t).value.id == t
    decreases fs
  {
    if fs != [] {
      FoundIffListed(fs[0], t);
      FoundAmongIffListed(fs[1..], t);
    }
  }

  /** Attaching adds exactly the new descendants; with no such parent it changes nothing. */
  lemma {:induction false} AttachAddsIds(f: Frame, t: nat, c: Frame)
    ensures Ids(Attach(f, t, c)) == Ids(f) + (if t in Ids(f) then Ids(c) else multiset{})
    ensures t !in Ids(f) ==> Attach(f, t, c) == f
    decreases f
  {
    if f.id == t {
      IdsAmongAppend(f.children, c);
    } else {
      AttachAmongAddsIds(f.children, t, c);
    }
  }

  lemma {:induction false} AttachAmongAddsIds(fs: seq<Frame>, t: nat, c: Frame)
    ensures IdsAmong(AttachAmong(fs, t, c)) == IdsAmong(fs) + (if t in IdsAmong(fs) then Ids(c) else multiset{})
    ensures t !in IdsAmong(fs) ==> AttachAmong(fs, t, c) == fs
    decreases fs
  {
    if fs != [] {
      FoundIffListed(fs[0], t);
      var head, rest := Ids(fs[0]), IdsAmong(fs[1..]);
      Regroup(head, rest, Ids(c));
      if t in head {
        AttachAddsIds(fs[0], t, c);
        IdsOfTwo(Attach(fs[0], t, c), fs[1..]);
      } else {
        AttachAmongAddsIds(fs[1..], t, c);
        IdsOfTwo(fs[0], AttachAmong(fs[1..], t, c));
      }
    }
  }

  lemma Regroup(a: multiset<nat>, b: multiset<nat>, more: multiset<nat>)
    ensures (a + more) + b == (a + b) + more == a + (b + more)
  {
  }

  lemma IdsOfTwo(f: Frame, fs: seq<Frame>)
    ensures IdsAmong([f] + fs) == Ids(f) + IdsAmong(fs)
  {
    assert ([f] + fs)[1..] == fs;
  }

  lemma {:induction false} IdsAmongAppend(fs: seq<Frame>, c: Frame)
    ensures IdsAmong(fs + [c]) == IdsAmong(fs) + Ids(c)
    decreases fs
  {
    if fs == [] {
      assert (fs + [c])[1..] == [];
    } else {
      assert (fs + [c])[1..] == fs[1..] + [c];
      IdsAmongAppend(fs[1..], c);
    }
  }

  /** What a frame's own child list says. */
  function Kids(f: Frame): seq<(nat, Document)> {
    seq(|f.children|, i requires 0 <= i < |f.children| => (f.children[i].id, f.children[i].doc))
  }

  /** Frame `x` before and after: the same, except that the parent gained one last child. */
  ghost predicate SameExceptParent(before: Option<Frame>, after: Option<Frame>, x: nat, t: nat, c: Frame) {
    match before
    case None => after == if x == c.id then Some(c) else None
    case Some(g) =>
      && after.Some? && after.value.id == g.id && after.value.doc == g.doc
      && Kids(after.value) == Kids(g) + (if x == t then [(c.id, c.doc)] else [])
      && after.value.domVersion == g.domVersion + (if x == t then 1 else 0)
  }

  /** Attaching a fresh leaf changes no child list but its parent's, in a tree without repeated ids. */
  lemma {:induction false} AttachTouchesOnlyParent(f: Frame, t: nat, c: Frame, x: nat)
    requires UniqueIds(Ids(f)) && t in Ids(f) && c.children == [] && c.id !in Ids(f)
    ensures SameExceptParent(FindById(f, x), FindById(Attach(f, t, c), x), x, t, c)
    decreases f
  {
    FoundIffListed(f, x);
    var after := Attach(f, t, c);
    if f.id == t {
      if x != t {
        FindAmongAppend(f.children, c, x);
      } else {
        assert Kids(after) == Kids(f) + [(c.id, c.doc)];
      }
    } else {
      assert t in IdsAmong(f.children) && UniqueIds(IdsAmong(f.children)) by {
        assert forall y :: IdsAmong(f.children)[y] <= Ids(f)[y];
      }
      AttachAmongTouchesOnlyParent(f.children, t, c, x);
      if x == f.id {
        KidsAmongKept(f.children, t, c);
        assert Kids(after) == Kids(f);
      }
    }
  }

  lemma {:induction false} FindAmongAppend(fs: seq<Frame>, c: Frame, x: nat)
    requires c.children == []
    ensures FindAmong(fs + [c], x)
         == if FindAmong(fs, x).Some? then FindAmong(fs, x) else if x == c.id then Some(c) else None
    decreases fs
  {
    if fs == [] {
      assert (fs + [c])[1..] == [];
    } else {
      assert (fs + [c])[1..] == fs[1..] + [c];
      FindAmongAppend(fs[1..], c, x);
    }
  }

  lemma {:induction false} AttachAmongTouchesOnlyParent(fs: seq<Frame>, t: nat, c: Frame, x: nat)
    requires UniqueIds(IdsAmong(fs)) && t in IdsAmong(fs) && c.children == [] && c.id !in IdsAmong(fs)
    ensures SameExceptParent(FindAmong(fs, x), FindAmong(AttachAmong(fs, t, c), x), x, t, c)
    decreases fs
  {
    var after := AttachAmong(fs, t, c);
    assert forall y :: IdsAmong(fs)[y] == Ids(fs[0])[y] + IdsAmong(fs[1..])[y];
    FoundIffListed(fs[0], t);
    FoundIffListed(fs[0], x);
    FoundAmongIffListed(fs[1..], x);
    if t in Ids(fs[0]) {
      assert after[1..] == fs[1..];
      AttachTouchesOnlyParent(fs[0], t, c, x);
    } else {
      assert after[1..] == AttachAmong(fs[1..], t, c);
      AttachAmongTouchesOnlyParent(fs[1..], t, c, x);
    }
  }

  lemma {:induction false} KidsAmongKept(fs: seq<Frame>, t: nat, c: Frame)
    ensures |AttachAmong(fs, t, c)| == |fs|
    ensures forall i | 0 <= i < |fs| ::
              AttachAmong(fs, t, c)[i].id == fs[i].id && AttachAmong(fs, t, c)[i].doc == fs[i].doc
    decreases fs
  {
    if fs != [] {
      KidsAmongKept(fs[1..], t, c);
    }
  }

  // ---------- populating iframes ----------

  function Loaded(iframes: seq<Iframe>): seq<Document> {
    if iframes == [] then []
    else Loaded(iframes[..|iframes| - 1]) + if iframes[|iframes| - 1].Loads? then [iframes[|iframes| - 1].doc] else []
  }

  function Size(d: Document): nat
    decreases d
  {
    1 + SizeOfIframes(d.iframes)
  }

  function SizeOfIframes(iframes: seq<Iframe>): nat
    decreases iframes
  {
    if iframes == [] then 0
    else SizeOfIframe(iframes[0]) + SizeOfIframes(iframes[1..])
  }

  function SizeOfIframe(iframe: Iframe): nat
    decreases iframe
  {
    if iframe.Loads? then Size(iframe.doc) else 0
  }

  function TotalSize(docs: seq<Document>): nat {
    if docs == [] then 0 else TotalSize(docs[..|docs| - 1]) + Size(docs[|docs| - 1])
  }

  lemma {:induction false} TotalSizeConcat(a: seq<Document>, b: seq<Document>)
    ensures TotalSize(a + b) == TotalSize(a) + TotalSize(b)
    decreases |b|
  {
    if b == [] {
      assert a + b == a;
    } else {
      assert (a + b)[..|a + b| - 1] == a + b[..|b| - 1];
      TotalSizeConcat(a, b[..|b| - 1]);
    }
  }

  lemma {:induction false} LoadedSize(iframes: seq<Iframe>)
    ensures TotalSize(Loaded(iframes)) == SizeOfIframes(iframes)
    decreases |iframes|
  {
    if iframes != [] {
      LoadedFromFront(iframes);
      var first := if iframes[0].Loads? then [iframes[0].doc] else [];
      TotalSizeConcat(first, Loaded(iframes[1..]));
      LoadedSize(iframes[1..]);
      if iframes[0].Loads? {
        assert TotalSize(first) == Size(iframes[0].doc) by {
          assert first[..0] == [];
        }
      }
    }
  }

  lemma {:induction false} LoadedFromFront(iframes: seq<Iframe>)
    requires iframes != []
    ensures Loaded(iframes) == (if iframes[0].Loads? then [iframes[0].doc] else []) + Loaded(iframes[1..])
    decreases |iframes|
  {
    var n := |iframes| - 1;
    if n > 0 {
      LoadedFromFront(iframes[..n]);
      assert iframes[..n][1..] == iframes[1..][..n - 1];
      assert iframes[1..][|iframes[1..]| - 1] == iframes[n];
    } else {
      assert iframes[..0] == [] && iframes[1..] == [];
    }
  }

  /** A tree of documents, with ids and version counters forgotten. */
  datatype Shape = Shape(doc: Document, kids: seq<Shape>)

  function ShapeOf(f: Frame): Shape
    decreases f
  {
    Shape(f.doc, ShapesOf(f.children))
  }

  function ShapesOf(fs: seq<Frame>): seq<Shape>
    decreases fs
  {
    if fs == [] then [] else [ShapeOf(fs[0])] + ShapesOf(fs[1..])
  }

  /** Every iframe that loads, in document order, at every level: the tree a recursive loader would build. */
  function SiteTree(d: Document): Shape
    decreases d
  {
    Shape(d, SiteTrees(d.iframes))
  }

  function SiteTrees(iframes: seq<Iframe>): seq<Shape>
    decreases iframes
  {
    if iframes == [] then []
    else SiteTreeOf(iframes[0]) + SiteTrees(iframes[1..])
  }

  function SiteTreeOf(iframe: Iframe): seq<Shape>
    decreases iframe
  {
    if iframe.Loads? then [SiteTree(iframe.doc)] else []
  }

  function KidDocs(f: Frame): seq<Document> {
    seq(|f.children|, i requires 0 <= i < |f.children| => f.children[i].doc)
  }

  ghost predicate AllDone(f: Frame)
    decreases f
  {
    KidDocs(f) == Loaded(f.doc.iframes) && AllDoneAmong(f.children)
  }

  ghost predicate AllDoneAmong(fs: seq<Frame>)
    decreases fs
  {
    fs == [] || (AllDone(fs[0]) && AllDoneAmong(fs[1..]))
  }

  lemma {:induction false} DoneIsSiteTree(f: Frame)
    requires AllDone(f)
    ensures ShapeOf(f) == SiteTree(f.doc)
    decreases f
  {
    DoneAreSiteTrees(f.children, f.doc.iframes);
  }

  lemma {:induction false} DoneAreSiteTrees(fs: seq<Frame>, iframes: seq<Iframe>)
    requires AllDoneAmong(fs) && |fs| == |Loaded(iframes)|
    requires forall i | 0 <= i < |fs| :: fs[i].doc == Loaded(iframes)[i]
    ensures ShapesOf(fs) == SiteTrees(iframes)
    decreases fs, |iframes|
  {
    if iframes != [] {
      LoadedFromFront(iframes);
      if iframes[0].Loads? {
        DoneIsSiteTree(fs[0]);
        DoneAreSiteTrees(fs[1..], iframes[1..]);
      } else {
        DoneAreSiteTrees(fs, iframes[1..]);
      }
    }
  }

  ghost predicate DoneAt(f: Frame, x: nat) {
    FindById(f, x).Some? && KidDocs(FindById(f, x).value) == Loaded(FindById(f, x).value.doc.iframes)
  }

  /** Frame by frame done is done throughout, when ids do not repeat. */
  lemma {:induction false} PointwiseDone(f: Frame)
    requires UniqueIds(Ids(f)) && forall x | x in Ids(f) :: DoneAt(f, x)
    ensures AllDone(f)
    decreases f
  {
    assert DoneAt(f, f.id);
    assert forall x :: Ids(f)[x] == multiset{f.id}[x] + IdsAmong(f.children)[x];
    forall x | x in IdsAmong(f.children) ensures DoneAmongAt(f.children, x) {
      assert DoneAt(f, x) && x != f.id;
    }
    PointwiseDoneAmong(f.children);
  }

  ghost predicate DoneAmongAt(fs: seq<Frame>, x: nat) {
    FindAmong(fs, x).Some? && KidDocs(FindAmong(fs, x).value) == Loaded(FindAmong(fs, x).value.doc.iframes)
  }

  lemma {:induction false} PointwiseDoneAmong(fs: seq<Frame>)
    requires UniqueIds(IdsAmong(fs)) && forall x | x in IdsAmong(fs) :: DoneAmongAt(fs, x)
    ensures AllDoneAmong(fs)
    decreases fs
  {
    if fs != [] {
      assert forall x :: IdsAmong(fs)[x] == Ids(fs[0])[x] + IdsAmong(fs[1..])[x];
      forall x | x in Ids(fs[0]) ensures DoneAt(fs[0], x) {
        FoundIffListed(fs[0], x);
        assert DoneAmongAt(fs, x);
      }
      forall x | x in IdsAmong(fs[1..]) ensures DoneAmongAt(fs[1..], x) {
        FoundIffListed(fs[0], x);
        assert DoneAmongAt(fs, x);
      }
      PointwiseDone(fs[0]);
      PointwiseDoneAmong(fs[1..]);
    }
  }

  /** Halfway through: frames on the worklist have no children yet, frame `busy` has its first `k` (use a number that
      is no id when none is busy), every other frame is done. */
  ghost predicate Progress(root: Frame, worklist: seq<nat>, busy: int, k: nat) {
    && UniqueIds(Ids(root))
    && (forall i, j | 0 <= i < j < |worklist| :: worklist[i] != worklist[j])
    && (forall i | 0 <= i < |worklist| :: worklist[i] in Ids(root) && worklist[i] != busy)
    && (forall x | x in Ids(root) :: ProgressAt(FindById(root, x), x, worklist, busy, k))
  }

  ghost predicate ProgressAt(found: Option<Frame>, x: nat, worklist: seq<nat>, busy: int, k: nat) {
    && found.Some? && found.value.id == x
    && var g := found.value;
    var docs := Loaded(g.doc.iframes);
    if x == busy then k <= |docs| && KidDocs(g) == docs[..k]
    else if x in worklist then g.children == []
    else KidDocs(g) == docs
  }

  lemma AttachProgressAt(root: Frame, worklist: seq<nat>, p: nat, k: nat, c: Frame, x: nat)
    requires UniqueIds(Ids(root)) && p in Ids(root) && c.children == [] && c.id !in Ids(root)
    requires x in Ids(root) && ProgressAt(FindById(root, x), x, worklist, p, k)
    requires x == p ==> var docs := Loaded(FindById(root, p).value.doc.iframes); k < |docs| && c.doc == docs[k]
    ensures ProgressAt(FindById(Attach(root, p, c), x), x, worklist + [c.id], p, k + 1)
    ensures FindById(Attach(root, p, c), x).value.doc == FindById(root, x).value.doc
  {
    AttachTouchesOnlyParent(root, p, c, x);
    var g, h := FindById(root, x).value, FindById(Attach(root, p, c), x).value;
    SameKidsSameDocs(g, h, if x == p then [c.doc] else []);
  }

  lemma AttachProgress(root: Frame, worklist: seq<nat>, p: nat, k: nat, c: Frame)
    requires Progress(root, worklist, p, k) && p in Ids(root)
    requires c.children == [] && c.id !in Ids(root)
    requires k < |Loaded(FindById(root, p).value.doc.iframes)|
          && c.doc == Loaded(FindById(root, p).value.doc.iframes)[k]
    ensures Progress(Attach(root, p, c), worklist + [c.id], p, k + 1)
    ensures Ids(Attach(root, p, c)) == Ids(root) + multiset{c.id}
    ensures forall x | x in Ids(root) :: SameDoc(FindById(root, x), FindById(Attach(root, p, c), x))
    ensures FindById(Attach(root, p, c), c.id) == Some(c)
  {
    var after := Attach(root, p, c);
    AttachAddsIds(root, p, c);
    assert Ids(c) == multiset{c.id};
    FoundIffListed(root, c.id);
    AttachTouchesOnlyParent(root, p, c, c.id);
    forall x | x in Ids(root)
      ensures ProgressAt(FindById(after, x), x, worklist + [c.id], p, k + 1)
      ensures SameDoc(FindById(root, x), FindById(after, x))
    {
      AttachProgressAt(root, worklist, p, k, c, x);
    }
    assert ProgressAt(FindById(after, c.id), c.id, worklist + [c.id], p, k + 1);
  }

  ghost predicate SameDoc(before: Option<Frame>, after: Option<Frame>) {
    before.Some? && after.Some? && after.value.doc == before.value.doc
  }

  lemma SameKidsSameDocs(g: Frame, h: Frame, more: seq<Document>)
    requires |Kids(h)| == |Kids(g)| + |more|
    requires forall i | 0 <= i < |Kids(g)| :: Kids(h)[i] == Kids(g)[i]
    requires forall i | 0 <= i < |more| :: Kids(h)[|Kids(g)| + i].1 == more[i]
    ensures KidDocs(h) == KidDocs(g) + more
    ensures |h.children| == |g.children| + |more|
  {
    forall i | 0 <= i < |KidDocs(h)| ensures KidDocs(h)[i] == (KidDocs(g) + more)[i] {
      assert Kids(h)[i].1 == h.children[i].doc;
      if i < |g.children| {
        assert Kids(g)[i].1 == g.children[i].doc;
      }
    }
  }

  /** `docs` are the documents of the frames on the worklist. */
  ghost predicate Tracks(root: Frame, worklist: seq<nat>, docs: seq<Document>) {
    |docs| == |worklist| && forall i | 0 <= i < |worklist| ::
      worklist[i] in Ids(root) && FindById(root, worklist[i]).Some? && FindById(root, worklist[i]).value.doc == docs[i]
  }

  /** Every id but the root's is from the supply between `first` and `bound`. */
  ghost predicate IdsBetween(root: Frame, first: nat, bound: nat) {
    forall x | x in Ids(root) :: x < bound && (x == root.id || first <= x)
  }

  lemma TracksOne(root: Frame, worklist: seq<nat>, docs: seq<Document>, p: nat, c: Frame)
    requires Tracks(root, worklist, docs)
    requires Ids(Attach(root, p, c)) == Ids(root) + multiset{c.id}
    requires forall x | x in Ids(root) :: SameDoc(FindById(root, x), FindById(Attach(root, p, c), x))
    requires FindById(Attach(root, p, c), c.id) == Some(c)
    ensures Tracks(Attach(root, p, c), worklist + [c.id], docs + [c.doc])
  {
    forall i | 0 <= i < |worklist|
      ensures SameDoc(FindById(root, worklist[i]), FindById(Attach(root, p, c), worklist[i]))
    {
    }
  }

  /** Taking the last frame off the worklist makes it the busy one; it is done at once if it has no iframes. */
  lemma PopProgress(root: Frame, worklist: seq<nat>)
    requires worklist != [] && Progress(root, worklist, -1, 0)
    ensures var n := |worklist| - 1;
            && worklist[n] in Ids(root) && FindById(root, worklist[n]).Some?
            && Progress(root, worklist[..n], worklist[n], 0)
            && (FindById(root, worklist[n]).value.doc.iframes == [] ==> Progress(root, worklist[..n], -1, 0))
  {
    var n := |worklist| - 1;
    var p := worklist[n];
    assert ProgressAt(FindById(root, p), p, worklist, -1, 0);
    forall x | x in Ids(root)
      ensures ProgressAt(FindById(root, x), x, worklist[..n], p, 0)
      ensures FindById(root, p).value.doc.iframes == [] ==> ProgressAt(FindById(root, x), x, worklist[..n], -1, 0)
    {
      assert ProgressAt(FindById(root, x), x, worklist, -1, 0);
      if x == p {
        assert KidDocs(FindById(root, x).value) == [];
      } else {
        assert x in worklist <==> x in worklist[..n];
      }
    }
  }

  /** The outer loop of the population. */
  ghost predicate Populating(root: Frame, worklist: seq<nat>, docs: seq<Document>, first: nat, bound: nat) {
    Progress(root, worklist, -1, 0) && Tracks(root, worklist, docs) && IdsBetween(root, first, bound) && first <= bound
  }

  /** The inner loop: the first `k` loaded documents are attached to frame `p`. */
  ghost predicate Attaching(root: Frame, worklist: seq<nat>, p: nat, k: nat, loaded: seq<Document>,
                            docs: seq<Document>, first: nat, bound: nat) {
    && Progress(root, worklist, p, k) && p in Ids(root)
    && FindById(root, p).Some? && loaded == Loaded(FindById(root, p).value.doc.iframes) && k <= |loaded|
    && Tracks(root, worklist, docs) && IdsBetween(root, first, bound) && first <= bound
  }

  lemma FreshPage(root: Frame, next: nat)
    requires root.children == [] && root.id < next
    ensures Populating(root, [root.id], [root.doc], next, next)
  {
    assert Ids(root) == multiset{root.id};
  }

  lemma AttachKeepsTrack(root: Frame, worklist: seq<nat>, p: nat, k: nat, docs: seq<Document>, first: nat, c: Frame)
    requires Progress(root, worklist, p, k) && p in Ids(root) && c.children == [] && first <= c.id
    requires Tracks(root, worklist, docs) && IdsBetween(root, first, c.id)
    requires k < |Loaded(FindById(root, p).value.doc.iframes)|
          && c.doc == Loaded(FindById(root, p).value.doc.iframes)[k]
    ensures var after := Attach(root, p, c);
            && Progress(after, worklist + [c.id], p, k + 1) && p in Ids(after)
            && Tracks(after, worklist + [c.id], docs + [c.doc]) && IdsBetween(after, first, c.id + 1)
            && SameDoc(FindById(root, p), FindById(after, p))
            && after.id == root.id && after.doc == root.doc
  {
    AttachProgress(root, worklist, p, k, c);
    TracksOne(root, worklist, docs, p, c);
  }

  lemma AttachStep(root: Frame, worklist: seq<nat>, p: nat, k: nat, loaded: seq<Document>,
                   base: seq<Document>, first: nat, bound: nat, c: Frame)
    requires k < |loaded| && c == Frame(c.id, loaded[k], [], 0) && c.id < bound
    requires Attaching(root, worklist, p, k, loaded, base + loaded[..k], first, c.id)
    ensures Attaching(Attach(root, p, c), worklist + [c.id], p, k + 1, loaded, base + loaded[..k + 1], first, bound)
    ensures Attach(root, p, c).id == root.id && Attach(root, p, c).doc == root.doc
  {
    AttachKeepsTrack(root, worklist, p, k, base + loaded[..k], first, c);
    assert base + loaded[..k] + [c.doc] == base + loaded[..k + 1];
  }

  /** Once all its documents are attached, no frame is busy. */
  lemma AttachedAll(root: Frame, worklist: seq<nat>, p: nat, loaded: seq<Document>, docs: seq<Document>, first: nat,
                    bound: nat)
    requires Attaching(root, worklist, p, |loaded|, loaded, docs, first, bound)
    ensures Populating(root, worklist, docs, first, bound)
  {
    assert loaded[..|loaded|] == loaded;
    forall x | x in Ids(root) ensures ProgressAt(FindById(root, x), x, worklist, -1, 0) {
      assert ProgressAt(FindById(root, x), x, worklist, p, |loaded|);
    }
  }

  lemma PopStep(root: Frame, worklist: seq<nat>, docs: seq<Document>, first: nat, bound: nat)
    requires worklist != [] && Populating(root, worklist, docs, first, bound)
    ensures var n := |worklist| - 1;
            && FindById(root, worklist[n]).Some? && |docs| == n + 1
            && var doc := FindById(root, worklist[n]).value.doc;
            && docs[n] == doc
            && Attaching(root, worklist[..n], worklist[n], 0, Loaded(doc.iframes), docs[..n], first, bound)
            && (doc.iframes == [] ==> Populating(root, worklist[..n], docs[..n], first, bound))
  {
    PopProgress(root, worklist);
  }

  lemma LessLeft(docs: seq<Document>, iframes: seq<Iframe>)
    requires docs != [] && docs[|docs| - 1].iframes == iframes
    ensures TotalSize(docs[..|docs| - 1] + Loaded(iframes)) < TotalSize(docs)
  {
    TotalSizeConcat(docs[..|docs| - 1], Loaded(iframes));
    LoadedSize(iframes);
  }

  lemma Populated(root: Frame, docs: seq<Document>, first: nat, bound: nat)
    requires Populating(root, [], docs, first, bound)
    ensures ShapeOf(root) == SiteTree(root.doc)
  {
    forall x | x in Ids(root) ensures DoneAt(root, x) {
      assert ProgressAt(FindById(root, x), x, [], -1, 0);
    }
    PointwiseDone(root);
    DoneIsSiteTree(root);
  }

  /** New leaves for these documents, their ids increasing from `from` on and below `bound`. */
  ghost predicate Numbered(frames: seq<Frame>, docs: seq<Document>, from: nat, bound: nat) {
    && |frames| == |docs| && from <= bound
    && (forall i | 0 <= i < |frames| ::
          frames[i] == Frame(frames[i].id, docs[i], [], 0) && from <= frames[i].id < bound)
    && (forall i, j | 0 <= i < j < |frames| :: frames[i].id < frames[j].id)
  }

  /** The id of the next of these frames to be attached, or the supply's next one. */
  function NextId(frames: seq<Frame>, k: nat, next: nat): nat {
    if k < |frames| then frames[k].id else next
  }

  lemma WiderBound(root: Frame, worklist: seq<nat>, p: nat, loaded: seq<Document>, docs: seq<Document>,
                   first: nat, bound: nat, wider: nat)
    requires Attaching(root, worklist, p, 0, loaded, docs, first, bound) && bound <= wider
    ensures Attaching(root, worklist, p, 0, loaded, docs, first, wider)
  {
  }

  class Page {
    var rootFrame: Frame
    var nextFrameId: nat   // the process-wide id supply

    constructor (doc: Document, next: nat)
      ensures rootFrame == Frame(next, doc, [], 0) && nextFrameId == next + 1
    {
      rootFrame := Frame(next, doc, [], 0);
      nextFrameId := next + 1;
    }

    /** Phase 2: one fresh frame for every iframe that loads; before each of them other pages may have taken
        ids from the supply. */
    method BuildFrames(iframes: seq<Iframe>, others: nat -> nat) returns (frames: seq<Frame>)
      modifies this`nextFrameId
      ensures Numbered(frames, Loaded(iframes), old(nextFrameId), nextFrameId)
    {
      frames := [];
      for i := 0 to |iframes|
        invariant Numbered(frames, Loaded(iframes[..i]), old(nextFrameId), nextFrameId)
      {
        assert iframes[..i + 1][..i] == iframes[..i];
        match iframes[i]
        case Fails =>
        case Loads(doc) =>
          nextFrameId := nextFrameId + others(nextFrameId);
          frames := frames + [Frame(nextFrameId, doc, [], 0)];
          nextFrameId := nextFrameId + 1;
      }
      assert iframes[..|iframes|] == iframes;
    }

    /** Phase 3: attach each new frame to its parent and schedule it. */
    method AttachFrames(parentId: nat, frames: seq<Frame>, worklist: seq<nat>,
                        ghost loaded: seq<Document>, ghost docs: seq<Document>, ghost first: nat, ghost from: nat)
        returns (longer: seq<nat>)
      requires Numbered(frames, loaded, from, nextFrameId)
      requires Attaching(rootFrame, worklist, parentId, 0, loaded, docs, first, from)
      modifies this`rootFrame
      ensures Attaching(rootFrame, longer, parentId, |loaded|, loaded, docs + loaded, first, nextFrameId)
      ensures rootFrame.id == old(rootFrame.id) && rootFrame.doc == old(rootFrame.doc)
    {
      longer := worklist;
      WiderBound(rootFrame, worklist, parentId, loaded, docs, first, from, NextId(frames, 0, nextFrameId));
      assert docs + loaded[..0] == docs;
      for k := 0 to |frames|
        invariant Attaching(rootFrame, longer, parentId, k, loaded, docs + loaded[..k], first,
                            NextId(frames, k, nextFrameId))
        invariant rootFrame.id == old(rootFrame.id) && rootFrame.doc == old(rootFrame.doc)
      {
        AttachStep(rootFrame, longer, parentId, k, loaded, docs, first, NextId(frames, k + 1, nextFrameId), frames[k]);
        rootFrame := Attach(rootFrame, parentId, frames[k]);
        longer := longer + [frames[k].id];
      }
      assert loaded[..|frames|] == loaded;
    }

    /** The worklist loop builds exactly the tree a recursive loader would build, with fresh ids, and keeps the
        root, however many ids other pages take from the supply in between. */
    method PopulateIframes(others: nat -> nat)
      requires rootFrame.children == [] && rootFrame.id < nextFrameId
      modifies this
      ensures ShapeOf(rootFrame) == SiteTree(old(rootFrame.doc))
      ensures rootFrame.id == old(rootFrame.id) && UniqueIds(Ids(rootFrame))
      ensures IdsBetween(rootFrame, old(nextFrameId), nextFrameId)
    {
      var worklist := [rootFrame.id];
      ghost var docs := [rootFrame.doc];
      ghost var first := nextFrameId;
      FreshPage(rootFrame, first);
      while worklist != []
        invariant Populating(rootFrame, worklist, docs, first, nextFrameId)
        invariant rootFrame.id == old(rootFrame.id) && rootFrame.doc == old(rootFrame.doc)
        decreases TotalSize(docs)
      {
        var n := |worklist| - 1;
        var parentId := worklist[n];
        PopStep(rootFrame, worklist, docs, first, nextFrameId);
        var iframes := FindById(rootFrame, parentId).value.doc.iframes;
        worklist := worklist[..n];
        ghost var rest := docs[..n];
        if iframes == [] {
          docs := rest;
          continue;
        }
        ghost var from := nextFrameId;
        var frames := BuildFrames(iframes, others);
        worklist := AttachFrames(parentId, frames, worklist, Loaded(iframes), rest, first, from);
        AttachedAll(rootFrame, worklist, parentId, Loaded(iframes), rest + Loaded(iframes), first, nextFrameId);
        LessLeft(docs, iframes);
        docs := rest + Loaded(iframes);
      }
      Populated(rootFrame, docs, first, nextFrameId);
    }
  }
}
