/** The string operations of the JavaScript runtime that the coverage report
    relies on: `split("\n")`, `trimStart()` and `startsWith`. `Join` is not
    called by the report; it is the inverse of `Split`, used to state the
    round trip.
    A string is a sequence of characters; each character stands for one
    UTF-16 code unit of the JavaScript string. */
module Text {

  /** `s.startsWith(prefix)`: `s` is `prefix` followed by the rest of `s`,
      that is, `s` agrees with `prefix` at every position of `prefix`. */
  predicate StartsWith(s: string, prefix: string): (b: bool)
    ensures b <==> |prefix| <= |s| && forall k :: 0 <= k < |prefix| ==> s[k] == prefix[k]
    ensures b ==> s == prefix + s[|prefix|..]
  {
    |prefix| <= |s| && s[..|prefix|] == prefix
  }

  /** A text made of `prefix` followed by anything starts with `prefix`. */
  lemma StartsWithConcat(prefix: string, t: string)
    ensures StartsWith(prefix + t, prefix)
  {
    assert (prefix + t)[..|prefix|] == prefix;
  }

  /** The number of line feeds in `s`. */
  function CountNewlines(s: string): nat
  {
    multiset(s)['\n']
  }

  /** `s.split("\n")`: the pieces of `s` between line feeds, in order. The
      empty string splits into one empty piece, and a trailing line feed
      leaves an empty last piece. */
  function Split(s: string): (pieces: seq<string>)
    ensures |pieces| >= 1
    ensures forall k :: 0 <= k < |pieces| ==> '\n' !in pieces[k]
  {
    if s == [] then [[]]
    else
      var rest := Split(s[1..]);
      if s[0] == '\n' then [[]] + rest
      else [[s[0]] + rest[0]] + rest[1..]
  }

  /** `pieces.join("\n")` */
  function Join(pieces: seq<string>): string
  {
    if |pieces| == 0 then []
    else if |pieces| == 1 then pieces[0]
    else pieces[0] + "\n" + Join(pieces[1..])
  }

  /** Splitting on line feeds yields one piece more than there are line
      feeds. */
  lemma {:induction false} SplitCount(s: string)
    ensures |Split(s)| == 1 + CountNewlines(s)
  {
    if s != [] {
      SplitCount(s[1..]);
      assert s == [s[0]] + s[1..];
      assert multiset(s) == multiset{s[0]} + multiset(s[1..]);
    }
  }

  /** Joining the pieces of a split gives back the original text. */
  lemma {:induction false} JoinSplit(s: string)
    ensures Join(Split(s)) == s
  {
    if s != [] {
      var rest := Split(s[1..]);
      JoinSplit(s[1..]);
      if s[0] == '\n' {
        assert Split(s) == [[]] + rest;
        assert Join(Split(s)) == [] + "\n" + Join(rest);
      } else if |rest| == 1 {
        assert Split(s) == [[s[0]] + rest[0]];
      } else {
        assert Split(s) == [[s[0]] + rest[0]] + rest[1..];
        assert Join(rest) == rest[0] + "\n" + Join(rest[1..]);
        assert ([[s[0]] + rest[0]] + rest[1..])[1..] == rest[1..];
      }
    }
  }

  /** Splitting a text that starts with a piece free of line feeds glues
      that piece to the front of the first piece of the rest. */
  lemma {:induction false} SplitAfterPiece(p: string, t: string)
    requires '\n' !in p
    ensures Split(p + t) == [p + Split(t)[0]] + Split(t)[1..]
  {
    if p != [] {
      SplitAfterPiece(p[1..], t);
      assert (p + t)[1..] == p[1..] + t;
      assert (p + t)[0] == p[0] != '\n';
      assert [p[0]] + (p[1..] + Split(t)[0]) == p + Split(t)[0];
    } else {
      assert p + t == t;
      assert p + Split(t)[0] == Split(t)[0];
      assert Split(t) == [Split(t)[0]] + Split(t)[1..];
    }
  }

  /** Splitting the join of pieces that hold no line feed gives back those
      pieces: together with JoinSplit, `Split` and `Join` are inverse. */
  lemma {:induction false} SplitJoin(pieces: seq<string>)
    requires |pieces| >= 1
    requires forall k :: 0 <= k < |pieces| ==> '\n' !in pieces[k]
    ensures Split(Join(pieces)) == pieces
  {
    if |pieces| == 1 {
      SplitAfterPiece(pieces[0], []);
      assert pieces[0] + [] == pieces[0];
    } else {
      var tail := Join(pieces[1..]);
      SplitJoin(pieces[1..]);
      SplitAfterPiece(pieces[0], "\n" + tail);
      assert pieces[0] + "\n" + tail == pieces[0] + ("\n" + tail);
      assert ("\n" + tail)[1..] == tail;
      assert Split("\n" + tail) == [[]] + pieces[1..];
      assert pieces[0] + [] == pieces[0];
    }
  }

  /** The characters `trimStart()` removes: ECMAScript's WhiteSpace (tab,
      vertical tab, form feed, space, no-break space, the byte order mark
      and the Unicode space separators) and LineTerminator productions. */
  const Whitespace: set<char> := {
    '\t', '\n', '\U{000B}', '\U{000C}', '\r', ' ', '\U{00A0}', '\U{1680}',
    '\U{2000}', '\U{2001}', '\U{2002}', '\U{2003}', '\U{2004}', '\U{2005}',
    '\U{2006}', '\U{2007}', '\U{2008}', '\U{2009}', '\U{200A}',
    '\U{2028}', '\U{2029}', '\U{202F}', '\U{205F}', '\U{3000}', '\U{FEFF}'
  }

  predicate IsWhitespace(c: char)
  {
    c in Whitespace
  }

  /** `s.trimStart()`: the suffix of `s` left after dropping its leading
      whitespace. */
  function TrimStart(s: string): (t: string)
    ensures |t| <= |s| && t == s[|s| - |t|..]
    ensures forall k :: 0 <= k < |s| - |t| ==> IsWhitespace(s[k])
    ensures t == [] || !IsWhitespace(t[0])
  {
    if s != [] && IsWhitespace(s[0]) then TrimStart(s[1..]) else s
  }

  /** The first character that `trimStart()` keeps is `c` exactly when `c`
      is the first character of `s` that is not whitespace. */
  predicate FirstNonBlankIs(s: string, c: char)
  {
    exists k :: 0 <= k < |s| && s[k] == c && forall m :: 0 <= m < k ==> IsWhitespace(s[m])
  }

  /** When the trimmed text starts with `c`, `c` is the first character of
      `s` that is not whitespace. */
  lemma TrimmedStartsWith(s: string, c: char)
    requires StartsWith(TrimStart(s), [c])
    ensures FirstNonBlankIs(s, c)
  {
    var t := TrimStart(s);
    assert s[|s| - |t|] == t[0] == c;
  }

  /** `trimStart()` stops exactly at the first character of `s` that is not
      whitespace, so the trimmed text starts with that character. */
  lemma {:induction false} TrimStopsAt(s: string, k: nat)
    requires k < |s| && !IsWhitespace(s[k])
    requires forall m :: 0 <= m < k ==> IsWhitespace(s[m])
    ensures TrimStart(s) == s[k..]
    ensures StartsWith(TrimStart(s), [s[k]])
  {
    if k > 0 {
      assert IsWhitespace(s[0]);
      TrimStopsAt(s[1..], k - 1);
      assert s[1..][k - 1..] == s[k..];
    }
    assert s[k..][..1] == [s[k]];
  }
}
