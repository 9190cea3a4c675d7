/** What the extraction reads, said without its recursions: which elements and texts, in which order, and how white
    space is put in normal form. */
module ReadingOrder {
  import opened Text
  import opened ContentExtract

  // ---------- what is shown ----------

  /** The element or text is not skipped: no tag that carries no content, no mark or style that hides it. */
  ghost predicate Shown(lower: Lower, node: DomNode) {
    && (node.nodeType == 1 ==>
          lower(node.tag) !in {"script", "style", "noscript", "template", "svg", "head", "iframe", "form", "button",
                               "select", "canvas", "map", "area"})
    && "hidden" !in node.attributes.Keys
    && ("aria-hidden" in node.attributes.Keys ==> node.attributes["aria-hidden"] != "true")
    && ("style" in node.attributes.Keys ==>
          forall i ::
            && !OccursAt(WithoutSpaces(lower(node.attributes["style"])), "display:none", i)
            && !OccursAt(WithoutSpaces(lower(node.attributes["style"])), "visibility:hidden", i))
  }

  lemma ShownIff(lower: Lower, node: DomNode)
    ensures Shown(lower, node) <==> !IsSkipped(lower, node)
  {
    if "style" in node.attributes {
      var compact := WithoutSpaces(lower(node.attributes["style"]));
      assert forall piece, i | OccursAt(compact, piece, i) :: 0 <= i <= |compact|;
    }
  }

  /** The hints that lower and raise a mark. */
  lemma Hints()
    ensures NEGATIVE_HINTS
         == ["nav", "navbar", "menu", "footer", "header", "sidebar", "breadcrumb", "comment", "advert", "promo",
             "cookie", "popup", "modal", "banner", "share", "social", "subscribe", "related", "widget", "pagination"]
    ensures POSITIVE_HINTS
         == ["article", "content", "main", "post", "story", "entry", "page-content", "body-content", "blog", "prose"]
  {
  }

  /** The code points that are white space. */
  lemma WhiteSpace(c: char)
    ensures IsWhitespace(c) <==>
            || 9 <= c as int <= 13 || c as int == 0x20 || c as int == 0x85 || c as int == 0xA0 || c as int == 0x1680
            || 0x2000 <= c as int <= 0x200A || c as int == 0x2028 || c as int == 0x2029 || c as int == 0x202F
            || c as int == 0x205F || c as int == 0x3000
  {
  }

  /** Dropping spaces works character by character. */
  lemma {:induction false} SpacesDropped(a: string, b: string)
    ensures WithoutSpaces(a + b) == WithoutSpaces(a) + WithoutSpaces(b)
  {
    if a == "" {
      assert a + b == b;
    } else {
      assert (a + b)[1..] == a[1..] + b && (a + b)[0] == a[0];
      SpacesDropped(a[1..], b);
      assert (if a[0] == ' ' then "" else [a[0]]) + (WithoutSpaces(a[1..]) + WithoutSpaces(b))
          == ((if a[0] == ' ' then "" else [a[0]]) + WithoutSpaces(a[1..])) + WithoutSpaces(b);
    }
  }

  lemma OneSpaceDropped(c: char)
    ensures WithoutSpaces([c]) == if c == ' ' then "" else [c]
  {
    assert WithoutSpaces([c][1..]) == "";
  }

  /** A chain of shown elements, each a child of the one before. */
  ghost predicate ShownPath(lower: Lower, n: Forest, path: seq<nat>) {
    && path != []
    && path[0] in n && n[path[0]].nodeType == 1 && Shown(lower, n[path[0]])
    && (|path| > 1 ==> path[1] in n[path[0]].children && ShownPath(lower, n, path[1..]))
  }

  ghost predicate Reached(lower: Lower, n: Forest, start: nat, id: nat) {
    exists path :: ShownPath(lower, n, path) && path[0] == start && path[|path| - 1] == id
  }

  /** One shown element, and what is reached from its children. */
  lemma ReachedThrough(lower: Lower, n: Forest, start: nat, id: nat)
    ensures Reached(lower, n, start, id) <==>
            && Readable(lower, n, start)
            && (id == start || exists c :: c in n[start].children && Reached(lower, n, c, id))
  {
    if start in n {
      ShownIff(lower, n[start]);
    }
    if Reached(lower, n, start, id) {
      var path :| ShownPath(lower, n, path) && path[0] == start && path[|path| - 1] == id;
      if |path| > 1 {
        assert ShownPath(lower, n, path[1..]) && Reached(lower, n, path[1], id);
      }
    } else if Readable(lower, n, start) {
      assert ShownPath(lower, n, [start]);
      forall c | c in n[start].children ensures !Reached(lower, n, c, id) {
        NotReachedBelow(lower, n, start, id, c);
      }
    }
  }

  lemma NotReachedBelow(lower: Lower, n: Forest, start: nat, id: nat, c: nat)
    requires Readable(lower, n, start) && !Reached(lower, n, start, id) && c in n[start].children
    ensures !Reached(lower, n, c, id)
  {
    ShownIff(lower, n[start]);
    if Reached(lower, n, c, id) {
      var path :| ShownPath(lower, n, path) && path[0] == c && path[|path| - 1] == id;
      assert ([start] + path)[1..] == path;
      assert ShownPath(lower, n, [start] + path);
    }
  }

  /** The walk visits exactly the elements reached through shown elements. */
  lemma {:induction false} WalkMembers(lower: Lower, n: Forest, start: nat, id: nat)
    ensures id in WalkOrder(lower, n, start) <==> Reached(lower, n, start, id)
    decreases Depth(n, start), 0
  {
    ReachedThrough(lower, n, start, id);
    if Readable(lower, n, start) {
      ChildrenBelow(n, start);
      StackMembers(lower, n, n[start].children, id);
    }
  }

  lemma {:induction false} StackMembers(lower: Lower, n: Forest, stack: seq<nat>, id: nat)
    ensures id in StackOrder(lower, n, stack) <==> exists c :: c in stack && Reached(lower, n, c, id)
    decreases MaxDepth(n, stack), |stack| + 1
  {
    if stack != [] {
      var init, last := stack[..|stack| - 1], stack[|stack| - 1];
      assert stack == init + [last];
      MaxDepthSplit(n, init, last);
      WalkMembers(lower, n, last, id);
      StackMembers(lower, n, init, id);
    }
  }

  // ---------- the text that is read ----------

  /** The texts of a subtree in document order: the children of shown elements, first child first. */
  function Texts(lower: Lower, n: Forest, id: nat): seq<nat>
    decreases Depth(n, id), 0
  {
    if id !in n then []
    else if n[id].nodeType == 3 then [id]
    else if !Readable(lower, n, id) then []
    else
      ChildrenBelow(n, id);
      TextsOf(lower, n, n[id].children)
  }

  function TextsOf(lower: Lower, n: Forest, ids: seq<nat>): seq<nat>
    decreases MaxDepth(n, ids), |ids| + 1
  {
    if ids == [] then [] else Texts(lower, n, ids[0]) + TextsOf(lower, n, ids[1..])
  }

  function Glued(n: Forest, ids: seq<nat>): string
    requires forall id | id in ids :: id in n
  {
    if ids == [] then "" else n[ids[0]].textContent + " " + Glued(n, ids[1..])
  }

  lemma {:induction false} GluedConcat(n: Forest, a: seq<nat>, b: seq<nat>)
    requires forall id | id in a + b :: id in n
    ensures (forall id | id in a :: id in n) && (forall id | id in b :: id in n)
    ensures Glued(n, a + b) == Glued(n, a) + Glued(n, b)
    decreases |a|
  {
    assert forall id | id in a :: id in a + b;
    assert forall id | id in b :: id in a + b;
    if a == [] {
      assert a + b == b;
    } else {
      assert (a + b)[1..] == a[1..] + b;
      GluedConcat(n, a[1..], b);
    }
  }

  /** What is read is those texts in that order, a space after each. */
  lemma {:induction false} RawTextIsGlued(lower: Lower, n: Forest, id: nat)
    ensures forall t | t in Texts(lower, n, id) :: t in n
    ensures RawText(lower, n, id) == Glued(n, Texts(lower, n, id))
    decreases Depth(n, id), 0
  {
    if Readable(lower, n, id) {
      ChildrenBelow(n, id);
      RawTextsAreGlued(lower, n, n[id].children);
    }
  }

  lemma {:induction false} RawTextsAreGlued(lower: Lower, n: Forest, ids: seq<nat>)
    ensures forall t | t in TextsOf(lower, n, ids) :: t in n
    ensures RawTexts(lower, n, ids) == Glued(n, TextsOf(lower, n, ids))
    decreases MaxDepth(n, ids), |ids| + 1
  {
    if ids != [] {
      RawTextIsGlued(lower, n, ids[0]);
      RawTextsAreGlued(lower, n, ids[1..]);
      GluedConcat(n, Texts(lower, n, ids[0]), TextsOf(lower, n, ids[1..]));
    }
  }

  /** Exactly the text nodes that are the start or a child of an element reached through shown elements. */
  lemma {:induction false} TextsMembers(lower: Lower, n: Forest, start: nat, t: nat)
    ensures t in Texts(lower, n, start) <==>
            && t in n && n[t].nodeType == 3
            && (t == start || exists e :: Reached(lower, n, start, e) && e in n && t in n[e].children)
    decreases Depth(n, start), 0
  {
    if Readable(lower, n, start) {
      ChildrenBelow(n, start);
      TextsOfMembers(lower, n, n[start].children, t);
      ReachedThrough(lower, n, start, start);
      forall e ensures Reached(lower, n, start, e) <==>
                       e == start || exists c :: c in n[start].children && Reached(lower, n, c, e) {
        ReachedThrough(lower, n, start, e);
      }
    } else {
      forall e ensures !Reached(lower, n, start, e) {
        ReachedThrough(lower, n, start, e);
      }
    }
  }

  lemma {:induction false} TextsOfMembers(lower: Lower, n: Forest, ids: seq<nat>, t: nat)
    ensures t in TextsOf(lower, n, ids) <==>
            && t in n && n[t].nodeType == 3
            && (t in ids || exists c, e :: c in ids && Reached(lower, n, c, e) && e in n && t in n[e].children)
    decreases MaxDepth(n, ids), |ids| + 1
  {
    if ids != [] {
      assert ids == [ids[0]] + ids[1..];
      TextsMembers(lower, n, ids[0], t);
      TextsOfMembers(lower, n, ids[1..], t);
    }
  }

  // ---------- words and white space ----------

  ghost predicate AllWhite(s: string) { forall c | c in s :: IsWhitespace(c) }

  ghost predicate IsWord(s: string) { s != "" && forall c | c in s :: !IsWhitespace(c) }

  /** Gaps and words in turn, a gap at both ends. */
  function Interleaved(gaps: seq<string>, words: seq<string>): string
    requires |gaps| == |words| + 1
  {
    if words == [] then gaps[0] else gaps[0] + words[0] + Interleaved(gaps[1..], words[1..])
  }

  /** These are the maximal runs of other characters: white space between any two, and nothing else around them. */
  ghost predicate Separates(s: string, gaps: seq<string>, words: seq<string>) {
    && |gaps| == |words| + 1 && s == Interleaved(gaps, words)
    && (forall i | 0 <= i < |words| :: IsWord(words[i]))
    && (forall i | 0 <= i < |gaps| :: AllWhite(gaps[i]))
    && (forall i | 0 < i < |words| :: gaps[i] != "")
  }

  /** `split_whitespace` returns the maximal runs. */
  lemma {:induction false} WordsSplit(s: string) returns (gaps: seq<string>)
    ensures Separates(s, gaps, Words(s))
    ensures s != "" ==> (gaps[0] == "" <==> !IsWhitespace(s[0]))
  {
    if s == "" {
      return [""];
    }
    var rest := WordsSplit(s[1..]);
    var words := Words(s[1..]);
    assert s == [s[0]] + s[1..];
    if IsWhitespace(s[0]) {
      gaps := [[s[0]] + rest[0]] + rest[1..];
      WhiteInFront(s[0], s[1..], rest, words);
    } else if |s| == 1 || IsWhitespace(s[1]) {
      gaps := [""] + rest;
      WordInFront(s[0], s[1..], rest, words);
    } else {
      gaps := rest;
      LetterInFront(s[0], s[1..], rest, words);
    }
  }

  lemma WhiteInFront(c: char, s: string, gaps: seq<string>, words: seq<string>)
    requires Separates(s, gaps, words) && IsWhitespace(c)
    ensures Separates([c] + s, [[c] + gaps[0]] + gaps[1..], words)
  {
    WiderGap(c, gaps, words);
  }

  lemma WordInFront(c: char, s: string, gaps: seq<string>, words: seq<string>)
    requires Separates(s, gaps, words) && !IsWhitespace(c) && (words != [] ==> gaps[0] != "")
    ensures Separates([c] + s, [""] + gaps, [[c]] + words)
  {
    assert ([""] + gaps)[1..] == gaps && ([[c]] + words)[1..] == words;
  }

  lemma LetterInFront(c: char, s: string, gaps: seq<string>, words: seq<string>)
    requires Separates(s, gaps, words) && !IsWhitespace(c) && words != [] && gaps[0] == ""
    ensures Separates([c] + s, gaps, [[c] + words[0]] + words[1..])
  {
    LongerWord(c, gaps, words);
  }

  lemma WiderGap(c: char, gaps: seq<string>, words: seq<string>)
    requires |gaps| == |words| + 1
    ensures Interleaved([[c] + gaps[0]] + gaps[1..], words) == [c] + Interleaved(gaps, words)
  {
    var wider := [[c] + gaps[0]] + gaps[1..];
    assert wider[1..] == gaps[1..];
    if words != [] {
      assert [c] + gaps[0] + words[0] + Interleaved(gaps[1..], words[1..])
          == [c] + (gaps[0] + words[0] + Interleaved(gaps[1..], words[1..]));
    }
  }

  lemma LongerWord(c: char, gaps: seq<string>, words: seq<string>)
    requires |gaps| == |words| + 1 && words != [] && gaps[0] == ""
    ensures Interleaved(gaps, [[c] + words[0]] + words[1..]) == [c] + Interleaved(gaps, words)
  {
    var longer := [[c] + words[0]] + words[1..];
    assert longer[1..] == words[1..];
    assert gaps[0] + ([c] + words[0]) + Interleaved(gaps[1..], words[1..])
        == [c] + (gaps[0] + words[0] + Interleaved(gaps[1..], words[1..]));
  }

  /** One space between any two words, none at the ends. */
  function SingleGaps(n: nat): seq<string> {
    seq(n + 1, i => if 0 < i < n then " " else "")
  }

  lemma {:induction false} SpacedIsInterleaved(words: seq<string>)
    ensures Spaced(words) == Interleaved(SingleGaps(|words|), words)
  {
    if |words| > 1 {
      var gaps, rest := SingleGaps(|words|), SingleGaps(|words| - 1);
      SpacedIsInterleaved(words[1..]);
      assert [' '] + rest[0] == " ";
      assert forall i | 0 <= i < |rest| :: gaps[1..][i] == ([[' '] + rest[0]] + rest[1..])[i];
      assert gaps[1..] == [[' '] + rest[0]] + rest[1..];
      WiderGap(' ', rest, words[1..]);
      assert Interleaved(gaps, words) == "" + words[0] + Interleaved(gaps[1..], words[1..]);
    } else if |words| == 1 {
      assert words[1..] == [] && Interleaved(SingleGaps(1)[1..], []) == "";
    }
  }

  /** Normal form: the same maximal runs, one space between any two of them and none at the ends. */
  lemma NormalForm(s: string) returns (gaps: seq<string>)
    ensures Separates(s, gaps, Words(s))
    ensures Separates(NormalizeWs(s), SingleGaps(|Words(s)|), Words(s))
  {
    gaps := WordsSplit(s);
    SpacedIsInterleaved(Words(s));
  }
}
