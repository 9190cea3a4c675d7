/** Main-content extraction: visible text, link text and the scored choice of a container. */
module ContentExtract {
  import opened Text

  /** `nodeType` 1 is an element, 3 a text node; others carry nothing readable. */
  datatype DomNode = DomNode(id: nat, tag: string, attributes: map<string, string>, textContent: string,
                             children: seq<nat>, nodeType: nat)

  type Nodes = map<nat, DomNode>

  /** Children sit strictly below their parents, as in every tree; child ids may dangle. */
  ghost predicate Ranks(nodes: Nodes, rank: map<nat, nat>) {
    forall id | id in nodes ::
      id in rank && forall c | c in nodes[id].children && c in nodes :: c in rank && rank[c] < rank[id]
  }

  /** Every node sits under its own id, and there is no cycle. */
  ghost predicate IsForest(nodes: Nodes) {
    (forall id | id in nodes :: nodes[id].id == id) && exists rank :: Ranks(nodes, rank)
  }

  lemma EmptyIsForest()
    ensures IsForest(map[])
  {
    assert Ranks(map[], map[]);
  }

  type Forest = nodes: Nodes | IsForest(nodes) ghost witness (EmptyIsForest(); map[])

  ghost function RankOf(n: Forest): (rank: map<nat, nat>)
    ensures Ranks(n, rank)
  {
    var rank :| Ranks(n, rank);
    rank
  }

  ghost function Depth(n: Forest, id: nat): nat {
    if id in n then 1 + RankOf(n)[id] else 0
  }

  ghost function MaxDepth(n: Forest, ids: seq<nat>): nat {
    if ids == [] then 0
    else if Depth(n, ids[0]) > MaxDepth(n, ids[1..]) then Depth(n, ids[0]) else MaxDepth(n, ids[1..])
  }

  lemma {:induction false} MaxDepthBelow(n: Forest, ids: seq<nat>, bound: nat)
    requires bound > 0 && forall c | c in ids :: Depth(n, c) < bound
    ensures MaxDepth(n, ids) < bound
  {
    if ids != [] {
      MaxDepthBelow(n, ids[1..], bound);
    }
  }

  lemma ChildrenBelow(n: Forest, id: nat)
    requires id in n
    ensures MaxDepth(n, n[id].children) < Depth(n, id)
  {
    MaxDepthBelow(n, n[id].children, Depth(n, id));
  }

  // ---------- what is skipped ----------

  const SKIP_TAGS := ["script", "style", "noscript", "template", "svg", "head", "iframe", "form", "button", "select",
                      "canvas", "map", "area"]

  predicate Contains(s: string, piece: string) { exists i | 0 <= i <= |s| :: OccursAt(s, piece, i) }

  function WithoutSpaces(s: string): string {
    if s == "" then "" else (if s[0] == ' ' then "" else [s[0]]) + WithoutSpaces(s[1..])
  }

  /** `lower` stands for `str::to_lowercase`. */
  type Lower = string -> string

  predicate IsHidden(lower: Lower, node: DomNode) {
    || "hidden" in node.attributes
    || ("aria-hidden" in node.attributes && node.attributes["aria-hidden"] == "true")
    || ("style" in node.attributes
        && var compact := WithoutSpaces(lower(node.attributes["style"]));
        Contains(compact, "display:none") || Contains(compact, "visibility:hidden"))
  }

  predicate IsSkipped(lower: Lower, node: DomNode) {
    (node.nodeType == 1 && lower(node.tag) in SKIP_TAGS) || IsHidden(lower, node)
  }

  /** An element whose subtree is read. */
  predicate Readable(lower: Lower, n: Forest, id: nat) {
    id in n && n[id].nodeType == 1 && !IsSkipped(lower, n[id])
  }

  // ---------- words ----------

  /** `char::is_whitespace` */
  predicate IsWhitespace(c: char) {
    || '\U{0009}' <= c <= '\U{000D}' || c == ' ' || c == '\U{0085}' || c == '\U{00A0}' || c == '\U{1680}'
    || '\U{2000}' <= c <= '\U{200A}' || c == '\U{2028}' || c == '\U{2029}' || c == '\U{202F}' || c == '\U{205F}'
    || c == '\U{3000}'
  }

  /** `split_whitespace`: the maximal runs of other characters. */
  function Words(s: string): (words: seq<string>)
    ensures s != "" && !IsWhitespace(s[0]) ==> words != []
  {
    if s == "" then []
    else if IsWhitespace(s[0]) then Words(s[1..])
    else if |s| == 1 || IsWhitespace(s[1]) then [[s[0]]] + Words(s[1..])
    else [[s[0]] + Words(s[1..])[0]] + Words(s[1..])[1..]
  }

  function Spaced(words: seq<string>): string {
    if words == [] then "" else if |words| == 1 then words[0] else words[0] + " " + Spaced(words[1..])
  }

  function NormalizeWs(s: string): string { Spaced(Words(s)) }

  predicate Closed(s: string) { s == "" || IsWhitespace(s[|s| - 1]) }

  /** A text that ends in whitespace shares no word with what follows. */
  lemma {:induction false} WordsConcat(a: string, b: string)
    requires Closed(a)
    ensures Words(a + b) == Words(a) + Words(b)
    decreases |a|
  {
    if a == "" {
      assert a + b == b;
    } else {
      assert (a + b)[1..] == a[1..] + b;
      WordsConcat(a[1..], b);
    }
  }

  lemma {:induction false} SpacedConcat(u: seq<string>, v: seq<string>)
    ensures |Spaced(u + v)| == |Spaced(u)| + |Spaced(v)| + if u != [] && v != [] then 1 else 0
    decreases |u|
  {
    if u == [] {
      assert u + v == v;
    } else {
      assert (u + v)[1..] == u[1..] + v;
      SpacedConcat(u[1..], v);
      if |u| == 1 {
        assert u[1..] == [];
      }
    }
  }

  /** Normalising a closed text and its continuation together is never shorter than apart. */
  lemma NormalizeConcat(a: string, b: string)
    requires Closed(a)
    ensures |NormalizeWs(a + b)| >= |NormalizeWs(a)| + |NormalizeWs(b)|
  {
    WordsConcat(a, b);
    SpacedConcat(Words(a), Words(b));
  }

  // ---------- visible text ----------

  function RawText(lower: Lower, n: Forest, id: nat): string
    decreases Depth(n, id), 0
  {
    if id !in n then ""
    else if n[id].nodeType == 3 then n[id].textContent + " "
    else if n[id].nodeType == 1 && !IsSkipped(lower, n[id]) then
      ChildrenBelow(n, id);
      RawTexts(lower, n, n[id].children)
    else ""
  }

  function RawTexts(lower: Lower, n: Forest, ids: seq<nat>): string
    decreases MaxDepth(n, ids), |ids| + 1
  {
    if ids == [] then "" else RawText(lower, n, ids[0]) + RawTexts(lower, n, ids[1..])
  }

  function VisibleText(lower: Lower, n: Forest, id: nat): string { NormalizeWs(RawText(lower, n, id)) }

  lemma {:induction false} RawTextClosed(lower: Lower, n: Forest, id: nat)
    ensures Closed(RawText(lower, n, id))
    decreases Depth(n, id), 0
  {
    if Readable(lower, n, id) {
      ChildrenBelow(n, id);
      RawTextsClosed(lower, n, n[id].children);
    }
  }

  lemma {:induction false} RawTextsClosed(lower: Lower, n: Forest, ids: seq<nat>)
    ensures Closed(RawTexts(lower, n, ids))
    decreases MaxDepth(n, ids), |ids| + 1
  {
    if ids != [] {
      RawTextClosed(lower, n, ids[0]);
      RawTextsClosed(lower, n, ids[1..]);
    }
  }

  lemma ChildDepth(n: Forest, id: nat, i: nat)
    requires id in n && i < |n[id].children|
    ensures Depth(n, n[id].children[i]) < Depth(n, id)
  {
    assert n[id].children[i] in n[id].children;
  }

  lemma RawTextsAt(lower: Lower, n: Forest, ids: seq<nat>, i: nat)
    requires i < |ids|
    ensures RawTexts(lower, n, ids[i..]) == RawText(lower, n, ids[i]) + RawTexts(lower, n, ids[i + 1..])
  {
    assert ids[i..][1..] == ids[i + 1..];
  }

  /** `visible_text_into` appends to the buffer it is given. */
  method VisibleTextInto(lower: Lower, n: Forest, id: nat, buffer: string) returns (s: string)
    ensures s == buffer + RawText(lower, n, id)
    decreases Depth(n, id), 1
  {
    s := buffer;
    if id in n {
      if n[id].nodeType == 3 {
        s := s + n[id].textContent;
        s := s + " ";
      } else if Readable(lower, n, id) {
        s := ChildrenInto(lower, n, id, s);
      }
    }
  }

  method ChildrenInto(lower: Lower, n: Forest, id: nat, buffer: string) returns (s: string)
    requires id in n
    ensures s == buffer + RawTexts(lower, n, n[id].children)
    decreases Depth(n, id), 0
  {
    s := buffer;
    var ids := n[id].children;
    assert ids[0..] == ids;
    for i := 0 to |ids|
      invariant s + RawTexts(lower, n, ids[i..]) == buffer + RawTexts(lower, n, ids)
    {
      ChildDepth(n, id, i);
      RawTextsAt(lower, n, ids, i);
      s := VisibleTextInto(lower, n, ids[i], s);
    }
  }

  // ---------- link text ----------

  /** Total visible length of the outermost anchors of a subtree. */
  function LinkLength(lower: Lower, n: Forest, id: nat): nat
    decreases Depth(n, id), 0
  {
    if !Readable(lower, n, id) then 0
    else if lower(n[id].tag) == "a" then |VisibleText(lower, n, id)|
    else
      ChildrenBelow(n, id);
      LinkLengths(lower, n, n[id].children)
  }

  function LinkLengths(lower: Lower, n: Forest, ids: seq<nat>): nat
    decreases MaxDepth(n, ids), |ids| + 1
  {
    if ids == [] then 0 else LinkLength(lower, n, ids[0]) + LinkLengths(lower, n, ids[1..])
  }

  /** The links of a node never measure more than its visible text, so the clamp in the density never acts. */
  lemma {:induction false} LinksWithinText(lower: Lower, n: Forest, id: nat)
    ensures LinkLength(lower, n, id) <= |VisibleText(lower, n, id)|
    decreases Depth(n, id), 0
  {
    if Readable(lower, n, id) && lower(n[id].tag) != "a" {
      ChildrenBelow(n, id);
      LinksWithinTexts(lower, n, n[id].children);
    }
  }

  lemma {:induction false} LinksWithinTexts(lower: Lower, n: Forest, ids: seq<nat>)
    ensures LinkLengths(lower, n, ids) <= |NormalizeWs(RawTexts(lower, n, ids))|
    decreases MaxDepth(n, ids), |ids| + 1
  {
    if ids != [] {
      LinksWithinText(lower, n, ids[0]);
      LinksWithinTexts(lower, n, ids[1..]);
      RawTextClosed(lower, n, ids[0]);
      NormalizeConcat(RawText(lower, n, ids[0]), RawTexts(lower, n, ids[1..]));
    }
  }

  /** Nodes a walk may still visit, with multiplicity: the measure of the stack loops. */
  ghost function Weight(n: Forest, id: nat): nat
    decreases Depth(n, id), 0
  {
    if id !in n then 1
    else
      ChildrenBelow(n, id);
      1 + Weights(n, n[id].children)
  }

  ghost function Weights(n: Forest, ids: seq<nat>): nat
    decreases MaxDepth(n, ids), |ids| + 1
  {
    if ids == [] then 0 else Weight(n, ids[0]) + Weights(n, ids[1..])
  }

  lemma {:induction false} WeightsConcat(n: Forest, a: seq<nat>, b: seq<nat>)
    ensures Weights(n, a + b) == Weights(n, a) + Weights(n, b)
    decreases |a|
  {
    if a == [] {
      assert a + b == b;
    } else {
      assert (a + b)[1..] == a[1..] + b;
      WeightsConcat(n, a[1..], b);
    }
  }

  lemma {:induction false} LinkLengthsConcat(lower: Lower, n: Forest, a: seq<nat>, b: seq<nat>)
    ensures LinkLengths(lower, n, a + b) == LinkLengths(lower, n, a) + LinkLengths(lower, n, b)
    decreases |a|
  {
    if a == [] {
      assert a + b == b;
    } else {
      assert (a + b)[1..] == a[1..] + b;
      LinkLengthsConcat(lower, n, a[1..], b);
    }
  }

  lemma TopOfStack(lower: Lower, n: Forest, stack: seq<nat>)
    requires stack != []
    ensures var rest, top := stack[..|stack| - 1], stack[|stack| - 1];
            && Weights(n, stack) == Weights(n, rest) + Weight(n, top)
            && LinkLengths(lower, n, stack) == LinkLengths(lower, n, rest) + LinkLength(lower, n, top)
  {
    var rest, top := stack[..|stack| - 1], stack[|stack| - 1];
    assert stack == rest + [top];
    WeightsConcat(n, rest, [top]);
    LinkLengthsConcat(lower, n, rest, [top]);
    assert [top][1..] == [];
  }

  /** The stack walk computes the recursive total. */
  method LinkTextLen(lower: Lower, n: Forest, nodeId: nat) returns (total: nat)
    ensures total == LinkLength(lower, n, nodeId)
    ensures total <= |VisibleText(lower, n, nodeId)|
  {
    total := 0;
    var stack := [nodeId];
    assert stack[1..] == [];
    while stack != []
      invariant total + LinkLengths(lower, n, stack) == LinkLength(lower, n, nodeId)
      decreases Weights(n, stack)
    {
      TopOfStack(lower, n, stack);
      var id := stack[|stack| - 1];
      stack := stack[..|stack| - 1];
      if id in n && n[id].nodeType == 1 {
        if IsSkipped(lower, n[id]) {
          continue;
        }
        if lower(n[id].tag) == "a" {
          total := total + |VisibleText(lower, n, n[id].id)|;
          continue;
        }
        LinkLengthsConcat(lower, n, stack, n[id].children);
        WeightsConcat(n, stack, n[id].children);
        stack := stack + n[id].children;
      }
    }
    LinksWithinText(lower, n, nodeId);
  }

  // ---------- the choice of the container ----------

  const NEGATIVE_HINTS := ["nav", "navbar", "menu", "footer", "header", "sidebar", "breadcrumb", "comment", "advert",
                           "promo", "cookie", "popup", "modal", "banner", "share", "social", "subscribe", "related",
                           "widget", "pagination"]
  const POSITIVE_HINTS := ["article", "content", "main", "post", "story", "entry", "page-content", "body-content",
                           "blog", "prose"]
  const MIN_CONTENT_CHARS: nat := 25

  /** The hints, by position, that occur in the text. */
  function Hits(hints: seq<string>, text: string): set<int> {
    set i | 0 <= i < |hints| && Contains(text, hints[i])
  }

  function Pow(base: real, n: nat): real { if n == 0 then 1.0 else base * Pow(base, n - 1) }

  predicate Eligible(lower: Lower, n: Forest, id: nat) {
    Readable(lower, n, id) && |VisibleText(lower, n, id)| >= 25
  }

  /** Every readable character of the element is link text. */
  predicate AllLinks(lower: Lower, n: Forest, id: nat) {
    LinkLength(lower, n, id) == |VisibleText(lower, n, id)|
  }

  /** Where hints are looked for. */
  ghost function HintText(lower: Lower, node: DomNode): string {
    var classes := if "class" in node.attributes then node.attributes["class"] + " " else "";
    lower(if "id" in node.attributes then classes + node.attributes["id"] else classes)
  }

  ghost function Bonus(tag: string): real {
    if tag in {"article", "main"} then 1.3 else if tag in {"aside", "nav"} then 0.3 else 1.0
  }

  /** Text length, times 0.2 for every negative and 1.5 for every positive hint, times the bonus of the tag, times the
      share of the text that is no link. */
  ghost function Strength(length: nat, links: nat, negative: nat, positive: nat, bonus: real): real
    requires length > 0
  {
    length as real * Pow(0.2, negative) * Pow(1.5, positive) * bonus * (1.0 - links as real / length as real)
  }

  /** What an element contributes to the race. */
  ghost function Mark(lower: Lower, n: Forest, id: nat): real {
    if !Eligible(lower, n, id) then 0.0
    else
      var text := HintText(lower, n[id]);
      Strength(|VisibleText(lower, n, id)|, LinkLength(lower, n, id), |Hits(NEGATIVE_HINTS, text)|,
               |Hits(POSITIVE_HINTS, text)|, Bonus(lower(n[id].tag)))
  }

  lemma {:induction false} PowPositive(base: real, n: nat)
    requires base > 0.0
    ensures Pow(base, n) > 0.0
  {
    if n > 0 {
      PowPositive(base, n - 1);
    }
  }

  lemma Share(length: nat, links: nat)
    requires links <= length && length > 0
    ensures var share := 1.0 - links as real / length as real;
            share >= 0.0 && (share == 0.0 <==> links == length)
  {
    var whole, share := length as real, 1.0 - links as real / length as real;
    assert links as real / whole * whole == links as real;
    assert share * whole == whole - links as real;
    if share < 0.0 {
      ProductSign(-share, whole);
    } else if share > 0.0 {
      ProductSign(share, whole);
    }
  }

  lemma ProductSign(a: real, b: real)
    requires a > 0.0 && b >= 0.0
    ensures a * b >= 0.0 && (a * b == 0.0 <==> b == 0.0)
  {
  }

  lemma StrengthSign(length: nat, links: nat, negative: nat, positive: nat, bonus: real)
    requires links <= length && length > 0 && bonus > 0.0
    ensures Strength(length, links, negative, positive, bonus) >= 0.0
    ensures Strength(length, links, negative, positive, bonus) == 0.0 <==> links == length
  {
    PowPositive(0.2, negative);
    PowPositive(1.5, positive);
    Share(length, links);
    var p, q := Pow(0.2, negative), Pow(1.5, positive);
    ProductSign(length as real, p);
    ProductSign(length as real * p, q);
    ProductSign(length as real * p * q, bonus);
    ProductSign(length as real * p * q * bonus, 1.0 - links as real / length as real);
  }

  /** No mark is negative, and one is positive exactly for an element of enough text that is not all links. */
  lemma MarkSign(lower: Lower, n: Forest, id: nat)
    ensures Mark(lower, n, id) >= 0.0
    ensures Mark(lower, n, id) > 0.0 <==> Eligible(lower, n, id) && !AllLinks(lower, n, id)
  {
    if Eligible(lower, n, id) {
      var text := HintText(lower, n[id]);
      LinksWithinText(lower, n, id);
      StrengthSign(|VisibleText(lower, n, id)|, LinkLength(lower, n, id), |Hits(NEGATIVE_HINTS, text)|,
                   |Hits(POSITIVE_HINTS, text)|, Bonus(lower(n[id].tag)));
    }
  }

  lemma PowStep(base: real, x: real, y: real)
    requires x > 0.0 && y == base * x
    ensures base > 1.0 ==> y > x
    ensures base < 1.0 ==> y < x
  {
    assert (base - 1.0) * x == base * x - x;
    if base > 1.0 {
      assert (base - 1.0) * x > 0.0;
    } else if base < 1.0 {
      assert (1.0 - base) * x > 0.0;
    }
  }

  lemma PowNext(base: real, n: nat)
    requires base > 0.0
    ensures base > 1.0 ==> Pow(base, n) < Pow(base, n + 1)
    ensures base < 1.0 ==> Pow(base, n) > Pow(base, n + 1)
  {
    PowPositive(base, n);
    PowUnfold(base, n);
    PowStep(base, Pow(base, n), Pow(base, n + 1));
  }

  lemma PowUnfold(base: real, n: nat)
    ensures Pow(base, n + 1) == base * Pow(base, n)
  {
  }

  lemma {:induction false} PowOrder(base: real, m: nat, n: nat)
    requires m < n && base > 0.0
    ensures base > 1.0 ==> Pow(base, m) < Pow(base, n)
    ensures base < 1.0 ==> Pow(base, m) > Pow(base, n)
    decreases n
  {
    PowNext(base, n - 1);
    if m < n - 1 {
      PowOrder(base, m, n - 1);
    }
  }

  /** At equal text, links and tag, not all links: one more positive hint ranks higher, one more negative lower. */
  lemma MoreHintsRank(length: nat, links: nat, negative: nat, positive: nat, more: nat, bonus: real)
    requires links < length && bonus > 0.0 && more > 0
    ensures Strength(length, links, negative, positive + more, bonus)
          > Strength(length, links, negative, positive, bonus)
    ensures Strength(length, links, negative + more, positive, bonus)
          < Strength(length, links, negative, positive, bonus)
  {
    PowPositive(0.2, negative);
    PowPositive(1.5, positive);
    PowOrder(0.2, negative, negative + more);
    PowOrder(1.5, positive, positive + more);
    Share(length, links);
    var share := 1.0 - links as real / length as real;
    FactorsRank(length as real, Pow(0.2, negative), Pow(1.5, positive), Pow(1.5, positive + more), bonus, share);
    FactorsRank2(length as real, Pow(0.2, negative + more), Pow(0.2, negative), Pow(1.5, positive), bonus, share);
  }

  lemma Greater(a: real, b: real, c: real)
    requires a > b && c > 0.0
    ensures a * c > b * c && c * a > c * b
  {
    assert (a - b) * c > 0.0;
  }

  lemma FactorsRank(length: real, p: real, q: real, q': real, bonus: real, share: real)
    requires length > 0.0 && p > 0.0 && q < q' && bonus > 0.0 && share > 0.0
    ensures length * p * q * bonus * share < length * p * q' * bonus * share
  {
    ProductSign(length, p);
    Greater(q', q, length * p);
    Greater(length * p * q', length * p * q, bonus);
    Greater(length * p * q' * bonus, length * p * q * bonus, share);
  }

  lemma FactorsRank2(length: real, p: real, p': real, q: real, bonus: real, share: real)
    requires length > 0.0 && p < p' && q > 0.0 && bonus > 0.0 && share > 0.0
    ensures length * p * q * bonus * share < length * p' * q * bonus * share
  {
    Greater(p', p, length);
    Greater(length * p', length * p, q);
    Greater(length * p' * q, length * p * q, bonus);
    Greater(length * p' * q * bonus, length * p * q * bonus, share);
  }

  /** So between two such elements the one with more positive or fewer negative hints, and not the other way round in
      the other kind, has the higher mark. */
  lemma HintsRank(lower: Lower, n: Forest, a: nat, b: nat)
    requires Eligible(lower, n, a) && Eligible(lower, n, b) && !AllLinks(lower, n, a)
    requires |VisibleText(lower, n, a)| == |VisibleText(lower, n, b)|
    requires LinkLength(lower, n, a) == LinkLength(lower, n, b) && lower(n[a].tag) == lower(n[b].tag)
    requires var s, t := HintText(lower, n[a]), HintText(lower, n[b]);
             && |Hits(POSITIVE_HINTS, s)| >= |Hits(POSITIVE_HINTS, t)|
             && |Hits(NEGATIVE_HINTS, s)| <= |Hits(NEGATIVE_HINTS, t)|
    ensures var s, t := HintText(lower, n[a]), HintText(lower, n[b]);
            if |Hits(POSITIVE_HINTS, s)| == |Hits(POSITIVE_HINTS, t)|
               && |Hits(NEGATIVE_HINTS, s)| == |Hits(NEGATIVE_HINTS, t)|
            then Mark(lower, n, a) == Mark(lower, n, b) else Mark(lower, n, a) > Mark(lower, n, b)
  {
    var s, t := HintText(lower, n[a]), HintText(lower, n[b]);
    var negA, negB := |Hits(NEGATIVE_HINTS, s)|, |Hits(NEGATIVE_HINTS, t)|;
    var posA, posB := |Hits(POSITIVE_HINTS, s)|, |Hits(POSITIVE_HINTS, t)|;
    var length, links, bonus := |VisibleText(lower, n, a)|, LinkLength(lower, n, a), Bonus(lower(n[a].tag));
    LinksWithinText(lower, n, a);
    if posA > posB {
      MoreHintsRank(length, links, negA, posB, posA - posB, bonus);
    }
    if negA < negB {
      MoreHintsRank(length, links, negA, posB, negB - negA, bonus);
    }
  }

  method ClassOrId(lower: Lower, node: DomNode) returns (text: string)
    ensures text == HintText(lower, node)
  {
    var buf := "";
    if "class" in node.attributes {
      buf := buf + node.attributes["class"];
      buf := buf + " ";
    }
    assert buf == if "class" in node.attributes then node.attributes["class"] + " " else "";
    if "id" in node.attributes {
      buf := buf + node.attributes["id"];
    }
    text := lower(buf);
  }

  /** One factor for every hint that occurs. */
  method Scale(start: real, hints: seq<string>, text: string, factor: real) returns (score: real)
    ensures score == start * Pow(factor, |Hits(hints, text)|)
  {
    score := start;
    assert Hits(hints[..0], text) == {};
    for i := 0 to |hints|
      invariant score == start * Pow(factor, |Hits(hints[..i], text)|)
    {
      OneHintMore(hints, text, i);
      if Contains(text, hints[i]) {
        score := score * factor;
      }
    }
    assert hints[..|hints|] == hints;
  }

  lemma OneHintMore(hints: seq<string>, text: string, i: nat)
    requires i < |hints|
    ensures |Hits(hints[..i + 1], text)| == |Hits(hints[..i], text)| + if Contains(text, hints[i]) then 1 else 0
  {
    var before, after := Hits(hints[..i], text), Hits(hints[..i + 1], text);
    assert i !in before;
    assert after == if Contains(text, hints[i]) then before + {i} else before;
  }

  /** Multiplier from class and id. */
  method HintScore(lower: Lower, node: DomNode) returns (score: real)
    ensures var text := HintText(lower, node);
            score == Pow(0.2, |Hits(NEGATIVE_HINTS, text)|) * Pow(1.5, |Hits(POSITIVE_HINTS, text)|)
  {
    var text := ClassOrId(lower, node);
    score := Scale(1.0, NEGATIVE_HINTS, text, 0.2);
    score := Scale(score, POSITIVE_HINTS, text, 1.5);
  }

  method TagBonus(lower: Lower, node: DomNode) returns (bonus: real)
    ensures bonus == Bonus(lower(node.tag))
  {
    var tag := lower(node.tag);
    bonus := if tag == "article" || tag == "main" then 1.3 else if tag == "aside" || tag == "nav" then 0.3 else 1.0;
  }

  lemma {:induction false} MaxDepthSplit(n: Forest, init: seq<nat>, last: nat)
    ensures MaxDepth(n, init) <= MaxDepth(n, init + [last]) && Depth(n, last) <= MaxDepth(n, init + [last])
    decreases |init|
  {
    if init != [] {
      assert (init + [last])[1..] == init[1..] + [last];
      MaxDepthSplit(n, init[1..], last);
    }
  }

  /** The readable elements of a subtree in the order a stack walk meets them: the last child first. */
  function WalkOrder(lower: Lower, n: Forest, id: nat): seq<nat>
    decreases Depth(n, id), 0
  {
    if !Readable(lower, n, id) then []
    else
      ChildrenBelow(n, id);
      [id] + StackOrder(lower, n, n[id].children)
  }

  function StackOrder(lower: Lower, n: Forest, stack: seq<nat>): seq<nat>
    decreases MaxDepth(n, stack), |stack| + 1
  {
    if stack == [] then []
    else
      var init, last := stack[..|stack| - 1], stack[|stack| - 1];
      assert stack == init + [last];
      MaxDepthSplit(n, init, last);
      WalkOrder(lower, n, last) + StackOrder(lower, n, init)
  }

  lemma PushedLast(lower: Lower, n: Forest, stack: seq<nat>, last: nat)
    ensures StackOrder(lower, n, stack + [last]) == WalkOrder(lower, n, last) + StackOrder(lower, n, stack)
  {
    assert (stack + [last])[..|stack|] == stack;
  }

  lemma Joined(a: seq<nat>, b: seq<nat>, c: seq<nat>)
    ensures a + (b + c) == (a + b) + c
  {
  }

  lemma {:induction false} StackOrderConcat(lower: Lower, n: Forest, a: seq<nat>, b: seq<nat>)
    ensures StackOrder(lower, n, a + b) == StackOrder(lower, n, b) + StackOrder(lower, n, a)
    decreases |b|
  {
    if b == [] {
      assert a + b == a;
    } else {
      var init, last := b[..|b| - 1], b[|b| - 1];
      StackOrderConcat(lower, n, a, init);
      PushedLast(lower, n, a + init, last);
      PushedLast(lower, n, init, last);
      assert a + b == (a + init) + [last] && b == init + [last];
      Joined(WalkOrder(lower, n, last), StackOrder(lower, n, init), StackOrder(lower, n, a));
    }
  }

  /** Position `k` holds the first of the highest marks, and that mark is positive. */
  ghost predicate FirstBestAt(marks: seq<real>, k: int) {
    && 0 <= k < |marks| && marks[k] > 0.0
    && (forall i | 0 <= i < k :: marks[i] < marks[k])
    && (forall i | k < i < |marks| :: marks[i] <= marks[k])
  }

  /** `k` is the first best position, or -1 when no mark is positive. */
  ghost predicate IsFirstBest(marks: seq<real>, k: int) {
    if k < 0 then k == -1 && forall i | 0 <= i < |marks| :: marks[i] <= 0.0 else FirstBestAt(marks, k)
  }

  ghost predicate MarksOf(mark: nat -> real, order: seq<nat>, marks: seq<real>) {
    |marks| == |order| && forall i | 0 <= i < |order| :: marks[i] == mark(order[i])
  }

  /** The race so far: the best element and its mark. */
  ghost predicate Leads(order: seq<nat>, marks: seq<real>, k: int, best: Option<nat>, bestScore: real) {
    && |marks| == |order| && IsFirstBest(marks, k)
    && best == (if k < 0 then None else Some(order[k]))
    && bestScore == if k < 0 then 0.0 else marks[k]
  }

  lemma LeadsStep(order: seq<nat>, marks: seq<real>, k: int, best: Option<nat>, bestScore: real, id: nat, mark: real)
    requires Leads(order, marks, k, best, bestScore)
    ensures mark > bestScore ==> Leads(order + [id], marks + [mark], |order|, Some(id), mark)
    ensures mark <= bestScore ==> Leads(order + [id], marks + [mark], k, best, bestScore)
  {
  }

  /** The mark of one element, as the walk computes it. */
  method ComputeMark(lower: Lower, n: Forest, id: nat) returns (mark: real)
    requires Readable(lower, n, id)
    ensures mark == Mark(lower, n, id)
  {
    var textLen := |VisibleText(lower, n, n[id].id)|;
    if textLen < MIN_CONTENT_CHARS {
      return 0.0;
    }
    var linkLen := LinkTextLen(lower, n, n[id].id);
    linkLen := if linkLen <= textLen then linkLen else textLen;
    var hint := HintScore(lower, n[id]);
    var bonus := TagBonus(lower, n[id]);
    ghost var text := HintText(lower, n[id]);
    mark := CombineScore(textLen, linkLen, hint, bonus, |Hits(NEGATIVE_HINTS, text)|, |Hits(POSITIVE_HINTS, text)|);
  }

  method CombineScore(textLen: nat, linkLen: nat, hint: real, bonus: real, ghost negative: nat, ghost positive: nat)
    returns (score: real)
    requires textLen > 0 && hint == Pow(0.2, negative) * Pow(1.5, positive)
    ensures score == Strength(textLen, linkLen, negative, positive, bonus)
  {
    var density := linkLen as real / textLen as real;
    score := textLen as real * hint * bonus * (1.0 - density);
    Regrouped(textLen, linkLen, Pow(0.2, negative), Pow(1.5, positive), bonus);
  }

  lemma Regrouped(length: nat, links: nat, p: real, q: real, bonus: real)
    requires length > 0
    ensures length as real * (p * q) * bonus * (1.0 - links as real / length as real)
         == length as real * p * q * bonus * (1.0 - links as real / length as real)
  {
    Associated(length as real, p, q);
  }

  lemma Associated(a: real, b: real, c: real)
    ensures a * (b * c) == a * b * c
  {
  }

  /** The loop of the walk: what is done and what the stack still holds make up the walk, and the race is led
      by the best of what is done. */
  ghost predicate Racing(lower: Lower, n: Forest, mark: nat -> real, start: nat, stack: seq<nat>, order: seq<nat>,
                         marks: seq<real>, k: int, best: Option<nat>, bestScore: real) {
    && order + StackOrder(lower, n, stack) == WalkOrder(lower, n, start)
    && MarksOf(mark, order, marks) && Leads(order, marks, k, best, bestScore)
  }

  lemma RaceStep(lower: Lower, n: Forest, mark: nat -> real, start: nat, stack: seq<nat>, order: seq<nat>,
                 marks: seq<real>, k: int, best: Option<nat>, bestScore: real)
    requires stack != [] && Racing(lower, n, mark, start, stack, order, marks, k, best, bestScore)
    requires Readable(lower, n, stack[|stack| - 1])
    ensures var id := stack[|stack| - 1];
            var after := stack[..|stack| - 1] + n[id].children;
            if mark(id) > bestScore
            then Racing(lower, n, mark, start, after, order + [id], marks + [mark(id)], |order|, Some(id), mark(id))
            else Racing(lower, n, mark, start, after, order + [id], marks + [mark(id)], k, best, bestScore)
  {
    var rest, id := stack[..|stack| - 1], stack[|stack| - 1];
    StepsOnWalk(lower, n, rest, id, order);
    assert stack == rest + [id];
    LeadsStep(order, marks, k, best, bestScore, id, mark(id));
    MarksStep(mark, order, marks, id);
  }

  lemma MarksStep(mark: nat -> real, order: seq<nat>, marks: seq<real>, id: nat)
    requires MarksOf(mark, order, marks)
    ensures MarksOf(mark, order + [id], marks + [mark(id)])
  {
  }

  lemma StepsOnWalk(lower: Lower, n: Forest, rest: seq<nat>, id: nat, order: seq<nat>)
    requires Readable(lower, n, id)
    ensures order + StackOrder(lower, n, rest + [id])
         == (order + [id]) + StackOrder(lower, n, rest + n[id].children)
  {
    ReadableTop(lower, n, rest, id);
    var ahead := StackOrder(lower, n, rest + n[id].children);
    assert order + ([id] + ahead) == (order + [id]) + ahead;
  }

  /** `best` is the first element of the order with the highest mark, that mark being positive; it is `None`
      exactly when no mark is positive. */
  ghost predicate Chosen(mark: nat -> real, order: seq<nat>, best: Option<nat>) {
    match best
    case None => forall i | 0 <= i < |order| :: mark(order[i]) <= 0.0
    case Some(id) => exists k :: 0 <= k < |order| && order[k] == id && ChosenAt(mark, order, k)
  }

  ghost predicate ChosenAt(mark: nat -> real, order: seq<nat>, k: int)
    requires 0 <= k < |order|
  {
    && mark(order[k]) > 0.0
    && (forall i | 0 <= i < k :: mark(order[i]) < mark(order[k]))
    && (forall i | k < i < |order| :: mark(order[i]) <= mark(order[k]))
  }

  lemma LeaderIsChosen(mark: nat -> real, order: seq<nat>, marks: seq<real>, k: int, best: Option<nat>, bestScore: real)
    requires MarksOf(mark, order, marks) && Leads(order, marks, k, best, bestScore)
    ensures Chosen(mark, order, best)
  {
    if k >= 0 {
      assert ChosenAt(mark, order, k);
    }
  }

  /** The walk from the start. */
  method BestBelow(lower: Lower, n: Forest, start: nat) returns (best: Option<nat>)
    ensures Chosen((id: nat) => Mark(lower, n, id), WalkOrder(lower, n, start), best)
  {
    best := None;
    var bestScore := 0.0;
    var stack: seq<nat> := [start];
    ghost var done: seq<nat> := [];
    ghost var markOf := (id: nat) => Mark(lower, n, id);
    ghost var marks: seq<real>, k := [], -1;
    StartOrder(lower, n, start);
    while stack != []
      invariant Racing(lower, n, markOf, start, stack, done, marks, k, best, bestScore)
      decreases Weights(n, stack)
    {
      WalkStep(lower, n, stack);
      var id := stack[|stack| - 1];
      if Readable(lower, n, id) {
        var mark := ComputeMark(lower, n, id);
        RaceStep(lower, n, markOf, start, stack, done, marks, k, best, bestScore);
        if mark > bestScore {
          best, bestScore, k := Some(n[id].id), mark, |done|;
        }
        done, marks := done + [id], marks + [mark];
        stack := stack[..|stack| - 1] + n[id].children;
      } else {
        stack := stack[..|stack| - 1];
      }
    }
    LeaderIsChosen(markOf, done, marks, k, best, bestScore);
    assert done == WalkOrder(lower, n, start);
  }

  lemma NoneIffNonePositive(mark: nat -> real, order: seq<nat>, best: Option<nat>)
    requires Chosen(mark, order, best)
    ensures best.None? <==> forall id | id in order :: mark(id) <= 0.0
  {
  }

  lemma NoneIffAllLinks(lower: Lower, n: Forest, order: seq<nat>, best: Option<nat>)
    requires Chosen((id: nat) => Mark(lower, n, id), order, best)
    ensures best.None? <==> forall id | id in order && Eligible(lower, n, id) :: AllLinks(lower, n, id)
  {
    var mark := (id: nat) => Mark(lower, n, id);
    NoneIffNonePositive(mark, order, best);
    forall id: nat ensures mark(id) > 0.0 <==> Eligible(lower, n, id) && !AllLinks(lower, n, id) {
      MarkSign(lower, n, id);
    }
  }

  /** The container chosen is the first one of the walk, from the body or else the root, with the highest mark; none
      is chosen exactly when every element of enough text is nothing but links. */
  method MainContainer(lower: Lower, n: Forest, bodyId: Option<nat>, rootId: nat) returns (best: Option<nat>)
    ensures var order := WalkOrder(lower, n, if bodyId.Some? then bodyId.value else rootId);
            && Chosen((id: nat) => Mark(lower, n, id), order, best)
            && (best.None? <==> forall id | id in order && Eligible(lower, n, id) :: AllLinks(lower, n, id))
  {
    var start := if bodyId.Some? then bodyId.value else rootId;
    best := BestBelow(lower, n, start);
    NoneIffAllLinks(lower, n, WalkOrder(lower, n, start), best);
  }

  lemma TopOfWalk(lower: Lower, n: Forest, rest: seq<nat>, id: nat)
    ensures StackOrder(lower, n, rest + [id]) == WalkOrder(lower, n, id) + StackOrder(lower, n, rest)
    ensures Weights(n, rest + [id]) == Weights(n, rest) + Weight(n, id)
  {
    PushedLast(lower, n, rest, id);
    WeightsConcat(n, rest, [id]);
    assert [id][1..] == [];
  }

  lemma ReadableWalk(lower: Lower, n: Forest, id: nat)
    requires Readable(lower, n, id)
    ensures WalkOrder(lower, n, id) == [id] + StackOrder(lower, n, n[id].children)
    ensures Weight(n, id) == 1 + Weights(n, n[id].children)
  {
    ChildrenBelow(n, id);
  }

  lemma ReadableTop(lower: Lower, n: Forest, rest: seq<nat>, id: nat)
    requires Readable(lower, n, id)
    ensures StackOrder(lower, n, rest + [id]) == [id] + StackOrder(lower, n, rest + n[id].children)
    ensures Weights(n, rest) < Weights(n, rest + [id])
    ensures Weights(n, rest + n[id].children) < Weights(n, rest + [id])
  {
    TopOfWalk(lower, n, rest, id);
    ReadableWalk(lower, n, id);
    StackOrderConcat(lower, n, rest, n[id].children);
    WeightsConcat(n, rest, n[id].children);
  }

  lemma SkippedTop(lower: Lower, n: Forest, rest: seq<nat>, id: nat)
    requires !Readable(lower, n, id)
    ensures StackOrder(lower, n, rest + [id]) == StackOrder(lower, n, rest)
    ensures Weights(n, rest) < Weights(n, rest + [id])
  {
    TopOfWalk(lower, n, rest, id);
    assert WalkOrder(lower, n, id) == [];
    assert [] + StackOrder(lower, n, rest) == StackOrder(lower, n, rest);
  }

  /** Popping the top visits it, if it is readable, and puts its children in its place. */
  lemma WalkStep(lower: Lower, n: Forest, stack: seq<nat>)
    requires stack != []
    ensures var rest, id := stack[..|stack| - 1], stack[|stack| - 1];
            && Weights(n, rest) < Weights(n, stack)
            && (Readable(lower, n, id) ==>
                  StackOrder(lower, n, stack) == [id] + StackOrder(lower, n, rest + n[id].children)
                  && Weights(n, rest + n[id].children) < Weights(n, stack))
            && (!Readable(lower, n, id) ==> StackOrder(lower, n, stack) == StackOrder(lower, n, rest))
  {
    var rest, id := stack[..|stack| - 1], stack[|stack| - 1];
    assert stack == rest + [id];
    if Readable(lower, n, id) {
      ReadableTop(lower, n, rest, id);
    } else {
      SkippedTop(lower, n, rest, id);
    }
  }

  lemma StartOrder(lower: Lower, n: Forest, start: nat)
    ensures StackOrder(lower, n, [start]) == WalkOrder(lower, n, start)
  {
    assert [start][..0] == [];
  }
}
