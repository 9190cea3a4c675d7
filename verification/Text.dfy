/** String helpers shared by the matchers and parsers: `split`, its inverse, and `find`. */
module Text {

  datatype Option<+T> = None | Some(value: T)

  /** `s` holds `piece` at index `i`. */
  predicate OccursAt(s: string, piece: string, i: int) {
    0 <= i && i + |piece| <= |s| && s[i..i + |piece|] == piece
  }

  /** `str::find` on a string piece: the earliest occurrence. */
  method Find(s: string, piece: string) returns (r: Option<nat>)
    ensures r.Some? ==> OccursAt(s, piece, r.value) && forall j | 0 <= j < r.value :: !OccursAt(s, piece, j)
    ensures r.None? ==> forall j :: !OccursAt(s, piece, j)
  {
    var i := 0;
    while i + |piece| <= |s|
      invariant forall j | 0 <= j < i :: !OccursAt(s, piece, j)
    {
      if s[i..i + |piece|] == piece {
        return Some(i);
      }
      i := i + 1;
    }
    return None;
  }

  /** `str::split` on one character: always at least one piece, empty pieces kept. */
  function Split(s: string, sep: char): (pieces: seq<string>)
    ensures |pieces| >= 1
  {
    if s == "" then [""]
    else
      var rest := Split(s[1..], sep);
      if s[0] == sep then [""] + rest else [[s[0]] + rest[0]] + rest[1..]
  }

  /** The pieces with one separator between neighbours. */
  function Join(pieces: seq<string>, sep: char): string
    requires |pieces| >= 1
  {
    if |pieces| == 1 then pieces[0] else pieces[0] + [sep] + Join(pieces[1..], sep)
  }

  ghost predicate NoneContains(pieces: seq<string>, sep: char) {
    forall i | 0 <= i < |pieces| :: sep !in pieces[i]
  }

  /** Splitting loses nothing and leaves no separator inside a piece. */
  lemma {:induction false} JoinSplit(s: string, sep: char)
    ensures Join(Split(s, sep), sep) == s
    ensures NoneContains(Split(s, sep), sep)
  {
    if s != "" {
      JoinSplit(s[1..], sep);
      var rest := Split(s[1..], sep);
      var pieces := Split(s, sep);
      if s[0] == sep {
        assert pieces[1..] == rest;
        assert Join(pieces, sep) == "" + [sep] + Join(rest, sep);
      } else {
        assert pieces[1..] == rest[1..];
        if |rest| > 1 {
          assert Join(pieces, sep) == [s[0]] + rest[0] + [sep] + Join(rest[1..], sep);
        }
        assert Join(pieces, sep) == [s[0]] + Join(rest, sep);
      }
    }
  }

  /** Separator-free pieces are recovered exactly. */
  lemma {:induction false} SplitJoin(pieces: seq<string>, sep: char)
    requires |pieces| >= 1 && NoneContains(pieces, sep)
    ensures Split(Join(pieces, sep), sep) == pieces
    decreases |pieces|, |pieces[0]|
  {
    var joined := Join(pieces, sep);
    if pieces[0] == "" {
      if |pieces| > 1 {
        SplitJoin(pieces[1..], sep);
        assert joined[1..] == Join(pieces[1..], sep);
      }
    } else {
      var shorter := [pieces[0][1..]] + pieces[1..];
      assert shorter[1..] == pieces[1..];
      assert sep !in pieces[0][1..] by {
        assert forall c :: c in pieces[0][1..] ==> c in pieces[0];
      }
      assert pieces[0][0] in pieces[0];
      SplitJoin(shorter, sep);
      assert joined[1..] == Join(shorter, sep);
      assert joined[0] == pieces[0][0];
      assert [joined[0]] + shorter[0] == pieces[0];
    }
  }

  /** The order of Rust strings: by code point, a proper prefix first. */
  predicate LexLess(a: string, b: string) {
    b != "" && (a == "" || a[0] < b[0] || (a[0] == b[0] && LexLess(a[1..], b[1..])))
  }

  lemma {:induction false} LexLessIsStrictOrder(a: string, b: string, c: string)
    ensures !LexLess(a, a)
    ensures LexLess(a, b) || a == b || LexLess(b, a)
    ensures LexLess(a, b) && LexLess(b, c) ==> LexLess(a, c)
    ensures !(LexLess(a, b) && LexLess(b, a))
    decreases |a| + |b| + |c|
  {
    if a != "" {
      LexLessIsStrictOrder(a[1..], if b == "" then "" else b[1..], if c == "" then "" else c[1..]);
      if b != "" {
        assert a == [a[0]] + a[1..] && b == [b[0]] + b[1..];
      }
    }
  }

  /** At the first place where two strings differ, the smaller one has ended or has the smaller character. */
  ghost predicate DifferAt(a: string, b: string, k: int) {
    && 0 <= k <= |a| && k < |b| && a[..k] == b[..k]
    && (k == |a| || a[k] < b[k])
  }

  lemma {:induction false} LexLessMeaning(a: string, b: string)
    ensures LexLess(a, b) <==> exists k :: DifferAt(a, b, k)
  {
    if b != "" && (a == "" || a[0] < b[0]) {
      assert DifferAt(a, b, 0);
    } else if a != "" && b != "" && a[0] == b[0] {
      LexLessMeaning(a[1..], b[1..]);
      if k :| DifferAt(a[1..], b[1..], k) {
        assert a[..k + 1] == [a[0]] + a[1..][..k] && b[..k + 1] == [b[0]] + b[1..][..k];
        assert DifferAt(a, b, k + 1);
      }
      if k :| DifferAt(a, b, k) {
        assert k > 0 && a[1..][..k - 1] == a[..k][1..] && b[1..][..k - 1] == b[..k][1..];
        assert DifferAt(a[1..], b[1..], k - 1);
      }
    }
  }

  /** Decimal digits, most significant first. */
  function Decimal(n: nat): (s: string)
    ensures s != "" && forall i | 0 <= i < |s| :: '0' <= s[i] <= '9'
  {
    var digit := [('0' as int + n % 10) as char];
    if n < 10 then digit else Decimal(n / 10) + digit
  }

  /** The value of a non-empty digit string; `None` when some character is no digit. */
  function Digits(s: string): Option<nat> {
    if s == "" then Some(0)
    else
      var before, c := Digits(s[..|s| - 1]), s[|s| - 1];
      if before.None? || !('0' <= c <= '9') then None else Some(10 * before.value + (c as int - '0' as int))
  }

  lemma {:induction false} DigitsOfDecimal(n: nat)
    ensures Digits(Decimal(n)) == Some(n)
  {
    if n < 10 {
      assert Decimal(n)[..0] == "";
    } else {
      DigitsOfDecimal(n / 10);
      assert Decimal(n)[..|Decimal(n)| - 1] == Decimal(n / 10);
    }
  }
}
