/** Numbering the execution contexts of a page's descendant frames. */
module FrameContexts {
  import opened Text
  import opened FrameTree

  const FRAME_PREFIX := "frame-"
  const MAX_FRAME_ID: nat := 0xFFFF_FFFF

  /** `FrameId` as it is printed. */
  function Print(id: nat): string { FRAME_PREFIX + Decimal(id) }

  /** `FrameId::from_string`: the prefix, then a `u32` (the standard parser also takes a leading plus sign). */
  function Parse(s: string): Option<nat> {
    if |s| < 6 || s[..6] != FRAME_PREFIX then None
    else
      var rest := s[6..];
      var digits := if rest != "" && rest[0] == '+' then rest[1..] else rest;
      if digits == "" then None
      else
        var n := Digits(digits);
        if n.None? || n.value > MAX_FRAME_ID then None else n
  }

  lemma ParsePrint(id: nat)
    ensures Parse(Print(id)) == if id <= MAX_FRAME_ID then Some(id) else None
  {
    DigitsOfDecimal(id);
    assert Print(id)[..6] == FRAME_PREFIX && Print(id)[6..] == Decimal(id);
  }

  lemma ParsedForm(s: string) returns (digits: string)
    requires Parse(s).Some?
    ensures digits != "" && Digits(digits) == Parse(s) && (s == "frame-" + digits || s == "frame-+" + digits)
  {
    var rest := s[6..];
    assert s == "frame-" + rest;
    if rest[0] == '+' {
      digits := rest[1..];
      assert rest == "+" + digits;
      assert "frame-" + ("+" + digits) == "frame-+" + digits;
    } else {
      digits := rest;
    }
  }

  /** A frame id is accepted exactly when it is the prefix, perhaps a plus sign, and a decimal number of 32 bits. */
  lemma ParseIff(s: string, n: nat)
    ensures Parse(s) == Some(n) <==>
            n <= 0xFFFF_FFFF
            && exists digits :: digits != "" && Digits(digits) == Some(n)
                                && (s == "frame-" + digits || s == "frame-+" + digits)
  {
    if Parse(s) == Some(n) {
      var digits := ParsedForm(s);
    }
    if digits :| digits != "" && Digits(digits) == Some(n) && (s == "frame-" + digits || s == "frame-+" + digits) {
      DigitsAreDigits(digits);
      assert digits[0] in digits;
      if s == "frame-" + digits {
        assert s[..6] == FRAME_PREFIX && s[6..] == digits;
      } else {
        assert s[..6] == FRAME_PREFIX && s[6..] == "+" + digits && ("+" + digits)[1..] == digits;
      }
    }
  }

  lemma {:induction false} DigitsAreDigits(s: string)
    requires Digits(s).Some?
    ensures forall c | c in s :: '0' <= c <= '9'
  {
    if s != "" {
      DigitsAreDigits(s[..|s| - 1]);
      assert s == s[..|s| - 1] + [s[|s| - 1]];
    }
  }

  lemma PrintInjective(a: nat, b: nat)
    requires Print(a) == Print(b)
    ensures a == b
  {
    DigitsOfDecimal(a);
    DigitsOfDecimal(b);
    assert Print(a)[6..] == Decimal(a) && Print(b)[6..] == Decimal(b);
  }

  // ---------- the stack walk ----------

  /** All frames strictly below a frame, with multiplicity. */
  function Below(f: Frame): multiset<Frame>
    decreases f
  {
    BelowAmong(f.children)
  }

  function BelowAmong(fs: seq<Frame>): multiset<Frame>
    decreases fs
  {
    if fs == [] then multiset{} else multiset{fs[0]} + Below(fs[0]) + BelowAmong(fs[1..])
  }

  /** The order of the list: the children of a frame side by side, then what lies below the last of them, then what
      lies below the one before it, and so on. */
  function ListedBelow(f: Frame): seq<Frame>
    decreases f
  {
    f.children + ListedFromLast(f.children)
  }

  function ListedFromLast(fs: seq<Frame>): seq<Frame>
    decreases fs
  {
    if fs == [] then [] else ListedFromLast(fs[1..]) + ListedBelow(fs[0])
  }

  lemma {:induction false} ListedConcat(a: seq<Frame>, b: seq<Frame>)
    ensures ListedFromLast(a + b) == ListedFromLast(b) + ListedFromLast(a)
    decreases |a|
  {
    if a == [] {
      assert a + b == b;
    } else {
      assert (a + b)[1..] == a[1..] + b;
      ListedConcat(a[1..], b);
    }
  }

  /** Every descendant is listed exactly as often as it occurs in the tree. */
  lemma {:induction false} ListedIsBelow(f: Frame)
    ensures multiset(ListedBelow(f)) == Below(f)
    decreases f
  {
    ListedAreBelow(f.children);
  }

  lemma {:induction false} ListedAreBelow(fs: seq<Frame>)
    ensures multiset(fs) + multiset(ListedFromLast(fs)) == BelowAmong(fs)
    decreases fs
  {
    if fs != [] {
      ListedIsBelow(fs[0]);
      ListedAreBelow(fs[1..]);
      assert fs == [fs[0]] + fs[1..];
    }
  }

  lemma TopListed(rest: seq<Frame>, f: Frame)
    ensures ListedFromLast(rest + [f]) == f.children + ListedFromLast(rest + f.children)
  {
    ListedConcat(rest, [f]);
    ListedConcat(rest, f.children);
    assert [f][1..] == [] && ListedFromLast([f]) == ListedBelow(f);
  }

  /** Lists every descendant exactly as often as it occurs in the tree, in the order of the walk. */
  method CollectDescendants(root: Frame) returns (found: seq<Frame>)
    ensures found == ListedBelow(root) && multiset(found) == Below(root)
  {
    found := [];
    var stack := [root];
    assert [root][1..] == [] && ListedFromLast([root]) == ListedBelow(root);
    while stack != []
      invariant found + ListedFromLast(stack) == ListedBelow(root)
      decreases 2 * |ListedFromLast(stack)| + |stack|
    {
      var frame := stack[|stack| - 1];
      ghost var before, rest := found, stack[..|stack| - 1];
      assert stack == rest + [frame];
      TopListed(rest, frame);
      stack := stack[..|stack| - 1];
      for i := 0 to |frame.children|
        invariant found == before + frame.children[..i] && stack == rest + frame.children[..i]
      {
        found := found + [frame.children[i]];
        stack := stack + [frame.children[i]];
      }
      assert frame.children[..|frame.children|] == frame.children;
    }
    ListedIsBelow(root);
  }

  // ---------- the context map ----------

  lemma {:induction false} BelowAmongHasIds(fs: seq<Frame>, g: Frame)
    ensures BelowAmong(fs)[g] <= IdsAmong(fs)[g.id]
    decreases fs
  {
    if fs != [] {
      BelowAmongHasIds(fs[0].children, g);
      BelowAmongHasIds(fs[1..], g);
    }
  }

  /** Two different frames below one root never share an id, when ids do not repeat. */
  lemma {:induction false} IdDeterminesFrame(fs: seq<Frame>, g: Frame)
    requires UniqueIds(IdsAmong(fs)) && g in BelowAmong(fs)
    ensures FindAmong(fs, g.id) == Some(g)
    decreases fs
  {
    if g in BelowAmong(fs[1..]) {
      NotInFirst(fs, g);
      IdDeterminesFrame(fs[1..], g);
    } else if g in Below(fs[0]) {
      BelowFirst(fs, g);
      IdDeterminesFrame(fs[0].children, g);
    }
  }

  lemma NotInFirst(fs: seq<Frame>, g: Frame)
    requires UniqueIds(IdsAmong(fs)) && fs != [] && g in BelowAmong(fs[1..])
    ensures FindById(fs[0], g.id) == None && UniqueIds(IdsAmong(fs[1..]))
  {
    assert forall y :: IdsAmong(fs)[y] == Ids(fs[0])[y] + IdsAmong(fs[1..])[y];
    BelowAmongHasIds(fs[1..], g);
    FoundIffListed(fs[0], g.id);
  }

  lemma BelowFirst(fs: seq<Frame>, g: Frame)
    requires UniqueIds(IdsAmong(fs)) && fs != [] && g in Below(fs[0])
    ensures g.id != fs[0].id && UniqueIds(IdsAmong(fs[0].children))
  {
    assert forall y :: IdsAmong(fs)[y] == Ids(fs[0])[y] + IdsAmong(fs[1..])[y];
    assert forall y :: Ids(fs[0])[y] == multiset{fs[0].id}[y] + IdsAmong(fs[0].children)[y];
    BelowAmongHasIds(fs[0].children, g);
  }

  /** `find_by_frame_id_str` */
  function FindByPrinted(root: Frame, s: string): Option<Frame> {
    var id := Parse(s);
    if id.None? then None else FindById(root, id.value)
  }

  /** Looking a descendant up by its printed id finds that very frame. */
  lemma PrintedLookup(root: Frame, g: Frame)
    requires UniqueIds(Ids(root)) && g in Below(root) && g.id <= MAX_FRAME_ID
    ensures FindByPrinted(root, Print(g.id)) == Some(g) && g.id != root.id
  {
    assert forall y :: Ids(root)[y] == multiset{root.id}[y] + IdsAmong(root.children)[y];
    ParsePrint(g.id);
    BelowAmongHasIds(root.children, g);
    IdDeterminesFrame(root.children, g);
  }

  /** Frames with a body among the first `n`: each of them was given a number, built or not. */
  function Numbered(found: seq<Frame>, n: nat): nat
    requires n <= |found|
  {
    if n == 0 then 0 else Numbered(found, n - 1) + if found[n - 1].doc.html != "" then 1 else 0
  }

  /** The context of the `i`-th listed frame. */
  function ContextOf(found: seq<Frame>, i: nat): nat
    requires i < |found|
  {
    2 + Numbered(found, i)
  }

  predicate Builds(found: seq<Frame>, built: nat -> bool, i: nat)
    requires i < |found|
  {
    found[i].doc.html != "" && built(ContextOf(found, i))
  }

  lemma {:induction false} NumbersIncrease(found: seq<Frame>, i: nat, j: nat)
    requires i < j <= |found|
    ensures Numbered(found, i) <= Numbered(found, j)
    ensures found[i].doc.html != "" ==> Numbered(found, i) < Numbered(found, j)
    decreases j
  {
    if i < j - 1 {
      NumbersIncrease(found, i, j - 1);
    }
  }

  /** The map after the first `n` listed frames. */
  function ContextMap(found: seq<Frame>, built: nat -> bool, n: nat): map<string, nat>
    requires n <= |found|
  {
    if n == 0 then map[]
    else
      var before := ContextMap(found, built, n - 1);
      if Builds(found, built, n - 1) then before[Print(found[n - 1].id) := ContextOf(found, n - 1)] else before
  }

  /** The listed frame a key stands for, or -1. */
  function Owner(found: seq<Frame>, built: nat -> bool, n: nat, k: string): (i: int)
    requires n <= |found|
    ensures -1 <= i < n
    ensures i >= 0 ==> Builds(found, built, i) && k == Print(found[i].id)
    ensures forall j | i < j < n && Builds(found, built, j) :: Print(found[j].id) != k
  {
    if n == 0 then -1
    else if Builds(found, built, n - 1) && Print(found[n - 1].id) == k then n - 1
    else Owner(found, built, n - 1, k)
  }

  lemma {:induction false} MapMeaning(found: seq<Frame>, built: nat -> bool, n: nat, k: string)
    requires n <= |found|
    ensures var m, i := ContextMap(found, built, n), Owner(found, built, n, k);
            (k in m <==> i >= 0) && (i >= 0 ==> m[k] == ContextOf(found, i))
  {
    if n > 0 {
      MapMeaning(found, built, n - 1, k);
    }
  }

  ghost predicate DistinctFrames(found: seq<Frame>) {
    forall i, j | 0 <= i < j < |found| :: found[i].id != found[j].id
  }

  lemma {:induction false} OwnerIsSelf(found: seq<Frame>, built: nat -> bool, n: nat, i: nat)
    requires DistinctFrames(found) && i < n <= |found| && Builds(found, built, i)
    ensures Owner(found, built, n, Print(found[i].id)) == i
    decreases n
  {
    if i < n - 1 {
      OwnerIsSelf(found, built, n - 1, i);
      if Print(found[n - 1].id) == Print(found[i].id) {
        PrintInjective(found[n - 1].id, found[i].id);
      }
    }
  }

  /** Every frame that was built is found under its printed id with its own context. */
  lemma BuiltFramesAreMapped(found: seq<Frame>, built: nat -> bool, i: nat)
    requires DistinctFrames(found) && i < |found| && Builds(found, built, i)
    ensures var m := ContextMap(found, built, |found|);
            Print(found[i].id) in m && m[Print(found[i].id)] == ContextOf(found, i)
  {
    var k := Print(found[i].id);
    MapMeaning(found, built, |found|, k);
    OwnerIsSelf(found, built, |found|, i);
  }

  /** The listed frames with a body before position `n`. */
  ghost function WithBody(found: seq<Frame>, n: nat): set<int>
    requires n <= |found|
  {
    set j | 0 <= j < n && found[j].doc.html != ""
  }

  lemma {:induction false} NumberedCounts(found: seq<Frame>, n: nat)
    requires n <= |found|
    ensures Numbered(found, n) == |WithBody(found, n)|
  {
    var now := WithBody(found, n);
    if n == 0 {
      assert now == {};
    } else {
      NumberedCounts(found, n - 1);
      var before := WithBody(found, n - 1);
      assert n - 1 !in before && now == if found[n - 1].doc.html != "" then before + {n - 1} else before;
    }
  }

  /** The number of a listed frame with a body is two more than the frames with a body before it; it is in the map
      under the frame's printed id exactly if building that context succeeded. A frame without a body is not. */
  ghost predicate ContextRight(found: seq<Frame>, built: nat -> bool, contexts: map<string, nat>, i: int)
    requires 0 <= i < |found|
  {
    var key := "frame-" + Decimal(found[i].id);
    var number := 2 + |WithBody(found, i)|;
    if found[i].doc.html != "" && built(number) then key in contexts && contexts[key] == number
    else key !in contexts
  }

  lemma ContextIsRight(found: seq<Frame>, built: nat -> bool, i: nat)
    requires DistinctFrames(found) && i < |found|
    ensures ContextRight(found, built, ContextMap(found, built, |found|), i)
  {
    NumberedCounts(found, i);
    if Builds(found, built, i) {
      BuiltFramesAreMapped(found, built, i);
    } else {
      OthersAreNotMapped(found, built, i);
    }
  }

  lemma OthersAreNotMapped(found: seq<Frame>, built: nat -> bool, i: nat)
    requires DistinctFrames(found) && i < |found| && !Builds(found, built, i)
    ensures Print(found[i].id) !in ContextMap(found, built, |found|)
  {
    var k := Print(found[i].id);
    MapMeaning(found, built, |found|, k);
    var j := Owner(found, built, |found|, k);
    if j >= 0 {
      SamePrinted(found, i, j);
    }
  }

  lemma SamePrinted(found: seq<Frame>, i: nat, j: nat)
    requires DistinctFrames(found) && i < |found| && j < |found| && Print(found[i].id) == Print(found[j].id)
    ensures i == j
  {
    PrintInjective(found[i].id, found[j].id);
  }

  /** Contexts are numbered from 2 in list order, a failed build spending its number; `built` says which succeed. */
  method InjectChildFrames(root: Frame, built: nat -> bool)
    returns (found: seq<Frame>, contexts: map<string, nat>, next: nat)
    requires UniqueIds(Ids(root)) && forall x | x in Ids(root) :: x <= MAX_FRAME_ID
    ensures multiset(found) == Below(root) && DistinctFrames(found)
    ensures found == ListedBelow(root)
    ensures contexts == ContextMap(found, built, |found|) && next == 2 + Numbered(found, |found|)
    ensures forall i | 0 <= i < |found| :: ContextRight(found, built, contexts, i)
    ensures forall k | k in contexts ::
              exists i :: 0 <= i < |found| && found[i].doc.html != "" && k == "frame-" + Decimal(found[i].id)
    ensures next == 2 + |WithBody(found, |found|)|
  {
    found := CollectDescendants(root);
    ListedOnce(root, found);
    contexts := map[];
    next := 2;
    for i := 0 to |found|
      invariant contexts == ContextMap(found, built, i) && next == 2 + Numbered(found, i)
    {
      assert found[i] in multiset(found);
      IdsBounded(root, found[i]);
      PrintedLookup(root, found[i]);
      var frame := FindByPrinted(root, Print(found[i].id));
      var html := if frame.Some? then frame.value.doc.html else "";
      if html == "" {
        continue;
      }
      var contextId := next;
      next := next + 1;
      if built(contextId) {
        contexts := contexts[Print(found[i].id) := contextId];
      }
    }
    forall i | 0 <= i < |found| ensures ContextRight(found, built, contexts, i) {
      ContextIsRight(found, built, i);
    }
    forall k | k in contexts
      ensures exists i :: 0 <= i < |found| && found[i].doc.html != "" && k == "frame-" + Decimal(found[i].id)
    {
      MapMeaning(found, built, |found|, k);
    }
    NumberedCounts(found, |found|);
  }

  lemma IdsBounded(root: Frame, g: Frame)
    requires g in Below(root) && forall x | x in Ids(root) :: x <= MAX_FRAME_ID
    ensures g.id <= MAX_FRAME_ID
  {
    BelowAmongHasIds(root.children, g);
    assert g.id in Ids(root);
  }

  lemma ListedOnce(root: Frame, found: seq<Frame>)
    requires UniqueIds(Ids(root)) && multiset(found) == Below(root)
    ensures DistinctFrames(found)
  {
    assert forall y :: IdsAmong(root.children)[y] <= Ids(root)[y];
    forall i, j | 0 <= i < j < |found| ensures found[i].id != found[j].id {
      assert found[i] in multiset(found) && found[j] in multiset(found);
      if found[i].id == found[j].id {
        IdDeterminesFrame(root.children, found[i]);
        IdDeterminesFrame(root.children, found[j]);
        assert found[i] == found[j];
        TwiceListed(found, i, j);
        BelowAmongHasIds(root.children, found[i]);
      }
    }
  }

  lemma TwiceListed(found: seq<Frame>, i: nat, j: nat)
    requires i < j < |found| && found[i] == found[j]
    ensures multiset(found)[found[i]] >= 2
  {
    assert found == found[..j] + [found[j]] + found[j + 1..];
    assert found[i] in found[..j];
  }

  lemma ContextInRange(root: Frame, built: nat -> bool, found: seq<Frame>, k: string)
    requires UniqueIds(Ids(root)) && multiset(found) == Below(root)
    requires k in ContextMap(found, built, |found|)
    ensures 2 <= ContextMap(found, built, |found|)[k] < 2 + Numbered(found, |found|) && k != Print(root.id)
    ensures exists g :: g in Below(root) && g.doc.html != "" && k == Print(g.id)
  {
    MapMeaning(found, built, |found|, k);
    var i := Owner(found, built, |found|, k);
    NumbersIncrease(found, i, |found|);
    assert found[i] in multiset(found);
    BelowAmongHasIds(root.children, found[i]);
    assert Ids(root)[found[i].id] == multiset{root.id}[found[i].id] + IdsAmong(root.children)[found[i].id];
    if k == Print(root.id) {
      PrintInjective(root.id, found[i].id);
    }
  }

  lemma ContextsDiffer(built: nat -> bool, found: seq<Frame>, k: string, l: string)
    requires var m := ContextMap(found, built, |found|); k in m && l in m && m[k] == m[l]
    ensures k == l
  {
    MapMeaning(found, built, |found|, k);
    MapMeaning(found, built, |found|, l);
    var i, j := Owner(found, built, |found|, k), Owner(found, built, |found|, l);
    if i < j {
      NumbersIncrease(found, i, j);
    } else if j < i {
      NumbersIncrease(found, j, i);
    }
  }

  /** The context map is injective, starts at 2, and names descendants with a body only, never the root. */
  lemma ContextMapIsSound(root: Frame, built: nat -> bool, found: seq<Frame>)
    requires UniqueIds(Ids(root)) && multiset(found) == Below(root)
    ensures var m := ContextMap(found, built, |found|);
            && Print(root.id) !in m
            && (forall k | k in m :: 2 <= m[k] < 2 + Numbered(found, |found|))
            && (forall k, l | k in m && l in m && m[k] == m[l] :: k == l)
            && (forall k | k in m :: exists g :: g in Below(root) && g.doc.html != "" && k == Print(g.id))
  {
    var m := ContextMap(found, built, |found|);
    forall k | k in m
      ensures 2 <= m[k] < 2 + Numbered(found, |found|) && k != Print(root.id)
      ensures exists g :: g in Below(root) && g.doc.html != "" && k == Print(g.id)
    {
      ContextInRange(root, built, found, k);
    }
    forall k, l | k in m && l in m && m[k] == m[l] ensures k == l {
      ContextsDiffer(built, found, k, l);
    }
  }
}
