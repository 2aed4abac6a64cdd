/** The string operations of Go's `strings` package that the operator and its
    daemon rely on, and the facts about them the other modules need. */
module Text {

  datatype Option<+T> = None | Some(value: T)

  // ---------- splitting and joining ----------

  /** strings.Split for a one-character separator: always at least one piece. */
  function Split(s: string, sep: char): (r: seq<string>)
    ensures |r| >= 1
    ensures forall p | p in r :: sep !in p
    ensures Join(r, sep) == s
  {
    if s == "" then [""]
    else
      var rest := Split(s[1..], sep);
      if s[0] == sep then
        assert Join([""] + rest, sep) == [sep] + s[1..] by { assert ([""] + rest)[1..] == rest; }
        [""] + rest
      else
        assert Join([[s[0]] + rest[0]] + rest[1..], sep) == [s[0]] + Join(rest, sep) by {
          assert ([[s[0]] + rest[0]] + rest[1..])[1..] == rest[1..];
        }
        [[s[0]] + rest[0]] + rest[1..]
  }

  /** strings.Join for a one-character separator. */
  function Join(pieces: seq<string>, sep: char): string
  {
    if |pieces| == 0 then ""
    else if |pieces| == 1 then pieces[0]
    else pieces[0] + [sep] + Join(pieces[1..], sep)
  }

  lemma {:induction false} SplitOne(piece: string, sep: char)
    requires sep !in piece
    ensures Split(piece, sep) == [piece]
  {
    if piece != "" {
      SplitOne(piece[1..], sep);
    }
  }

  lemma {:induction false} SplitFirst(piece: string, rest: string, sep: char)
    requires sep !in piece
    ensures Split(piece + [sep] + rest, sep) == [piece] + Split(rest, sep)
  {
    var s := piece + [sep] + rest;
    if piece == "" {
      assert s[1..] == rest;
    } else {
      SplitFirst(piece[1..], rest, sep);
      assert s[1..] == piece[1..] + [sep] + rest;
      assert [piece[0]] + piece[1..] == piece;
    }
  }

  /** Join undoes Split by Split's contract; Split undoes Join on pieces that
      do not contain the separator. */
  lemma {:induction false} SplitJoin(pieces: seq<string>, sep: char)
    requires |pieces| >= 1
    requires forall p | p in pieces :: sep !in p
    ensures Split(Join(pieces, sep), sep) == pieces
  {
    if |pieces| == 1 {
      SplitOne(pieces[0], sep);
    } else {
      SplitJoin(pieces[1..], sep);
      SplitFirst(pieces[0], Join(pieces[1..], sep), sep);
      assert pieces == [pieces[0]] + pieces[1..];
    }
  }

  lemma {:induction false} JoinAppend(pieces: seq<string>, last: string, sep: char)
    requires |pieces| >= 1
    ensures Join(pieces + [last], sep) == Join(pieces, sep) + [sep] + last
  {
    if |pieces| > 1 {
      JoinAppend(pieces[1..], last, sep);
      assert (pieces + [last])[1..] == pieces[1..] + [last];
    }
  }

  /** Appending a separator and a piece to the text appends the piece to the list. */
  lemma SplitAppend(s: string, last: string, sep: char)
    requires sep !in last
    ensures Split(s + [sep] + last, sep) == Split(s, sep) + [last]
  {
    var pieces := Split(s, sep);
    JoinAppend(pieces, last, sep);
    SplitJoin(pieces + [last], sep);
  }

  lemma JoinEmpty(pieces: seq<string>, sep: char)
    ensures Join(pieces, sep) == "" <==> pieces == [] || pieces == [""]
  {
  }

  // ---------- searching ----------

  predicate HasPrefix(s: string, prefix: string)
  {
    |prefix| <= |s| && s[..|prefix|] == prefix
  }

  /** strings.Contains. */
  predicate Contains(s: string, t: string)
  {
    HasPrefix(s, t) || (s != "" && Contains(s[1..], t))
  }

  /** A piece of a joined list is a substring of the text. */
  lemma {:induction false} PieceIsSubstring(pieces: seq<string>, p: string, sep: char)
    requires p in pieces
    ensures Contains(Join(pieces, sep), p)
  {
    var s := Join(pieces, sep);
    if pieces[0] == p {
      assert HasPrefix(s, p);
    } else {
      PieceIsSubstring(pieces[1..], p, sep);
      ContainsSuffix(pieces[0] + [sep], Join(pieces[1..], sep), p);
    }
  }

  lemma {:induction false} ContainsSuffix(a: string, b: string, t: string)
    requires Contains(b, t)
    ensures Contains(a + b, t)
  {
    if a == "" {
      assert a + b == b;
    } else {
      ContainsSuffix(a[1..], b, t);
      assert (a + b)[1..] == a[1..] + b;
    }
  }

  // ---------- blanks and case ----------

  /** unicode.IsSpace. */
  predicate IsSpace(c: char)
  {
    c in {'\t', '\n', '\U{0B}', '\U{0C}', '\r', ' ', '\U{85}', '\U{A0}', '\U{1680}',
          '\U{2028}', '\U{2029}', '\U{202F}', '\U{205F}', '\U{3000}'}
    || '\U{2000}' <= c <= '\U{200A}'
  }

  function TrimLeft(s: string): string
  {
    if s != "" && IsSpace(s[0]) then TrimLeft(s[1..]) else s
  }

  function TrimRight(s: string): string
  {
    if s != "" && IsSpace(s[|s| - 1]) then TrimRight(s[..|s| - 1]) else s
  }

  /** strings.TrimSpace. */
  function Trim(s: string): (r: string)
    ensures forall c | c in r :: c in s
  {
    TrimSubset(s);
    TrimSubset(TrimLeft(s));
    TrimRight(TrimLeft(s))
  }

  lemma TrimSubset(s: string)
    ensures forall c | c in TrimLeft(s) :: c in s
    ensures forall c | c in TrimRight(s) :: c in s
  {
  }

  /** The simple case folding that can map a character onto an ASCII one: the
      upper-case letters, the long s and the Kelvin sign. */
  function Fold(c: char): char
  {
    if 'A' <= c <= 'Z' then c - 'A' + 'a'
    else if c == '\U{17F}' then 's'
    else if c == '\U{212A}' then 'k'
    else c
  }

  function FoldAll(s: string): string
  {
    seq(|s|, i requires 0 <= i < |s| => Fold(s[i]))
  }

  /** strings.EqualFold(strings.TrimSpace(p), strings.TrimSpace(q)). */
  predicate Loose(p: string, q: string)
  {
    FoldAll(Trim(p)) == FoldAll(Trim(q))
  }

  /** Node names as the API server admits them: non-empty, lower case, without
      commas or blanks. */
  ghost predicate WellFormed(name: string)
  {
    name != "" && forall c | c in name :: c != ',' && !IsSpace(c) && Fold(c) == c
  }

  lemma LooseIsEqual(p: string, q: string)
    requires WellFormed(p) && WellFormed(q)
    ensures Trim(p) == p
    ensures Loose(p, q) <==> p == q
  {
    assert p[0] in p && p[|p| - 1] in p && q[0] in q && q[|q| - 1] in q;
    assert FoldAll(p) == p && FoldAll(q) == q;
  }

  // ---------- counting ----------

  lemma {:induction false} SubsetCount<T>(a: set<T>, b: set<T>)
    requires a <= b
    ensures |a| <= |b|
  {
    if a != {} {
      var x :| x in a;
      SubsetCount(a - {x}, b - {x});
    }
  }
}
