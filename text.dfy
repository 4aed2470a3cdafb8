/**
 * The java.lang.String operations the converter relies on, written out over
 * `seq<char>`: trim, toUpperCase, endsWith, replace(char, char), the
 * String.join performed by Collectors.joining, and split on a literal
 * separator.
 */
module Text {

  /** Every element occurs once. */
  predicate Distinct<T(==)>(s: seq<T>)
  {
    forall i, j :: 0 <= i < j < |s| ==> s[i] != s[j]
  }

  /** String.trim removes every character up to U+0020 from both ends. */
  predicate IsTrimmable(c: char)
  {
    c <= ' '
  }

  function TrimStart(s: string): (r: string)
    ensures |r| <= |s|
    ensures r == [] || !IsTrimmable(r[0])
  {
    if s != [] && IsTrimmable(s[0]) then TrimStart(s[1..]) else s
  }

  function TrimEnd(s: string): (r: string)
    ensures r <= s
    ensures r == [] || !IsTrimmable(r[|r| - 1])
  {
    if s != [] && IsTrimmable(s[|s| - 1]) then TrimEnd(s[..|s| - 1]) else s
  }

  /** String.trim: the longest infix that neither starts nor ends with white space. */
  function Trim(s: string): (r: string)
    ensures |r| <= |s|
    ensures r == [] || (!IsTrimmable(r[0]) && !IsTrimmable(r[|r| - 1]))
  {
    TrimEnd(TrimStart(s))
  }

  /** A string that neither starts nor ends with white space is its own trim. */
  lemma TrimFixesTrimmed(s: string)
    requires s == [] || (!IsTrimmable(s[0]) && !IsTrimmable(s[|s| - 1]))
    ensures Trim(s) == s
  {
  }

  /** Trimming twice is trimming once. */
  lemma TrimIdempotent(s: string)
    ensures Trim(Trim(s)) == Trim(s)
  {
    TrimFixesTrimmed(Trim(s));
  }

  /** One step of TrimStart over a blank in front. */
  lemma TrimStartBlank(s: string)
    ensures TrimStart([' '] + s) == TrimStart(s)
  {
    assert ([' '] + s)[1..] == s;
  }

  /** One step of TrimEnd over a blank at the back. */
  lemma TrimEndBlank(s: string)
    ensures TrimEnd(s + [' ']) == TrimEnd(s)
  {
    assert (s + [' '])[..|s|] == s;
  }

  /** A leading blank is trimmed away. */
  lemma TrimLeadingBlank(s: string)
    requires s == [] || (!IsTrimmable(s[0]) && !IsTrimmable(s[|s| - 1]))
    ensures Trim([' '] + s) == s
  {
    TrimStartBlank(s);
    TrimFixesTrimmed(s);
  }

  /** A trailing blank is trimmed away. */
  lemma TrimTrailingBlank(s: string)
    requires s == [] || (!IsTrimmable(s[0]) && !IsTrimmable(s[|s| - 1]))
    ensures Trim(s + [' ']) == s
  {
    if s == [] {
      assert s + [' '] == [' '] + s;
      TrimLeadingBlank(s);
    } else {
      assert (s + [' '])[0] == s[0];
      assert TrimStart(s + [' ']) == s + [' '];
      TrimEndBlank(s);
      assert TrimStart(s) == s;
      TrimFixesTrimmed(s);
    }
  }

  /** Blanks on both sides are trimmed away. */
  lemma TrimPadded(s: string)
    requires s == [] || (!IsTrimmable(s[0]) && !IsTrimmable(s[|s| - 1]))
    ensures Trim([' '] + s + [' ']) == s
  {
    assert [' '] + s + [' '] == [' '] + (s + [' ']);
    TrimStartBlank(s + [' ']);
    TrimTrailingBlank(s);
  }

  /** A string made only of characters trim removes. */
  predicate AllTrimmable(s: string)
  {
    forall k :: 0 <= k < |s| ==> IsTrimmable(s[k])
  }

  /** TrimStart removes a white-space prefix and stops at the first other character. */
  lemma {:induction false} TrimStartPrefix(p: string, t: string)
    requires AllTrimmable(p)
    requires t == [] || !IsTrimmable(t[0])
    ensures TrimStart(p + t) == t
    decreases |p|
  {
    if p == [] {
      assert p + t == t;
    } else {
      assert (p + t)[0] == p[0];
      assert (p + t)[1..] == p[1..] + t;
      TrimStartPrefix(p[1..], t);
    }
  }

  /** TrimEnd removes a white-space suffix and stops at the last other character. */
  lemma {:induction false} TrimEndSuffix(t: string, q: string)
    requires AllTrimmable(q)
    requires t == [] || !IsTrimmable(t[|t| - 1])
    ensures TrimEnd(t + q) == t
    decreases |q|
  {
    if q == [] {
      assert t + q == t;
    } else {
      var u := t + q;
      assert u[|u| - 1] == q[|q| - 1];
      assert u[..|u| - 1] == t + q[..|q| - 1];
      TrimEndSuffix(t, q[..|q| - 1]);
    }
  }

  /**
   * String.trim takes off exactly the white space around the text: with
   * white space only before and after, and text that neither starts nor
   * ends with white space, the trim is that text.
   */
  lemma TrimPeel(p: string, s: string, q: string)
    requires AllTrimmable(p) && AllTrimmable(q)
    requires s == [] || (!IsTrimmable(s[0]) && !IsTrimmable(s[|s| - 1]))
    ensures Trim(p + s + q) == s
  {
    if s == [] {
      assert p + s + q == (p + q) + [];
      TrimStartPrefix(p + q, []);
    } else {
      assert p + s + q == p + (s + q);
      assert (s + q)[0] == s[0];
      TrimStartPrefix(p, s + q);
      TrimEndSuffix(s, q);
    }
  }

  /** TrimStart drops a prefix made of white space only. */
  lemma {:induction false} TrimStartDrops(s: string) returns (i: nat)
    ensures i <= |s| && TrimStart(s) == s[i..]
    ensures forall k :: 0 <= k < i ==> IsTrimmable(s[k])
    decreases |s|
  {
    if s != [] && IsTrimmable(s[0]) {
      var i' := TrimStartDrops(s[1..]);
      i := i' + 1;
      assert s[1..][i'..] == s[i..];
      forall k | 0 <= k < i ensures IsTrimmable(s[k]) {
        if k > 0 { assert s[k] == s[1..][k - 1]; }
      }
    } else {
      i := 0;
    }
  }

  /** TrimEnd drops a suffix made of white space only. */
  lemma {:induction false} TrimEndDrops(s: string) returns (j: nat)
    ensures j <= |s| && TrimEnd(s) == s[..j]
    ensures forall k :: j <= k < |s| ==> IsTrimmable(s[k])
    decreases |s|
  {
    if s != [] && IsTrimmable(s[|s| - 1]) {
      var u := s[..|s| - 1];
      j := TrimEndDrops(u);
      assert u[..j] == s[..j];
      forall k | j <= k < |s| ensures IsTrimmable(s[k]) {
        if k < |s| - 1 { assert s[k] == u[k]; }
      }
    } else {
      j := |s|;
      assert s[..j] == s;
    }
  }

  /**
   * The trim of `s` is the part of `s` between positions i and j, and
   * everything before i and from j on is white space.
   */
  lemma TrimInfix(s: string) returns (i: nat, j: nat)
    ensures i <= j <= |s| && Trim(s) == s[i..j]
    ensures forall k :: 0 <= k < i ==> IsTrimmable(s[k])
    ensures forall k :: j <= k < |s| ==> IsTrimmable(s[k])
  {
    i := TrimStartDrops(s);
    var t := s[i..];
    var m := TrimEndDrops(t);
    j := i + m;
    assert t[..m] == s[i..j];
    forall k | j <= k < |s| ensures IsTrimmable(s[k]) {
      assert s[k] == t[k - i];
    }
  }

  /** String.toUpperCase on the ASCII letters; every other character is kept. */
  function UpperChar(c: char): char
  {
    if 'a' <= c <= 'z' then (c as int - 32) as char else c
  }

  function ToUpper(s: string): (r: string)
    ensures |r| == |s|
    ensures forall k :: 0 <= k < |s| ==> r[k] == UpperChar(s[k])
  {
    seq(|s|, k requires 0 <= k < |s| => UpperChar(s[k]))
  }

  function EndsWith(s: string, suffix: string): bool
  {
    |suffix| <= |s| && s[|s| - |suffix|..] == suffix
  }

  /** String.replace(char, char): every occurrence of `from` becomes `to`. */
  function ReplaceChar(s: string, from: char, to: char): (r: string)
    ensures |r| == |s|
    ensures forall k :: 0 <= k < |s| ==> r[k] == (if s[k] == from then to else s[k])
  {
    if s == [] then []
    else [if s[0] == from then to else s[0]] + ReplaceChar(s[1..], from, to)
  }

  /** Collectors.joining(sep): the pieces in order with `sep` between neighbours. */
  function Join(pieces: seq<string>, sep: string): string
  {
    if pieces == [] then ""
    else if |pieces| == 1 then pieces[0]
    else pieces[0] + sep + Join(pieces[1..], sep)
  }

  /**
   * The pieces of `s` between the non-overlapping occurrences of the
   * non-empty `sep`, found from left to right; `current` is the piece being
   * collected. No piece is dropped.
   */
  function Pieces(s: string, sep: string, current: string): (r: seq<string>)
    requires sep != ""
    ensures |r| >= 1
    decreases |s|
  {
    if s == [] then [current]
    else if |sep| <= |s| && s[..|sep|] == sep then [current] + Pieces(s[|sep|..], sep, "")
    else Pieces(s[1..], sep, current + [s[0]])
  }

  /** Removes the empty strings at the end of `pieces`. */
  function DropTrailingEmpty(pieces: seq<string>): (r: seq<string>)
    ensures r <= pieces
    ensures r == [] || r[|r| - 1] != ""
    ensures forall k :: |r| <= k < |pieces| ==> pieces[k] == ""
  {
    if pieces == [] then []
    else if pieces[|pieces| - 1] == "" then DropTrailingEmpty(pieces[..|pieces| - 1])
    else pieces
  }

  /**
   * String.split(sep) with `sep` read as literal text: when `sep` does not
   * occur the result is the whole string, otherwise the pieces between the
   * occurrences with the trailing empty ones removed. The empty separator
   * splits a non-empty string into its characters.
   */
  function Split(s: string, sep: string): (r: seq<string>)
    ensures r != [] || s != ""
    ensures |r| <= 1 || r[|r| - 1] != ""
  {
    if sep == "" then
      (if s == "" then [""] else seq(|s|, k requires 0 <= k < |s| => [s[k]]))
    else
      var pieces := Pieces(s, sep, "");
      if |pieces| == 1 then pieces else DropTrailingEmpty(pieces)
  }

  /** Scanning a piece free of the one-character separator only collects it. */
  lemma {:induction false} PiecesOfPlain(x: string, c: char, current: string)
    requires c !in x
    ensures Pieces(x, [c], current) == [current + x]
    decreases |x|
  {
    if x != [] {
      assert x[..1] != [c] by { assert x[0] != c; }
      PiecesOfPlain(x[1..], c, current + [x[0]]);
      assert current + [x[0]] + x[1..] == current + x;
    } else {
      assert current + x == current;
    }
  }

  /** A string that does not contain the one-character separator splits into itself. */
  lemma SplitWithoutSeparator(s: string, c: char)
    requires c !in s
    ensures Split(s, [c]) == [s]
  {
    PiecesOfPlain(s, c, "");
    assert "" + s == s;
  }

  /** Scanning a piece free of the separator stops at the separator after it. */
  lemma {:induction false} PiecesOfPlainThenSep(x: string, c: char, rest: string, current: string)
    requires c !in x
    ensures Pieces(x + [c] + rest, [c], current) == [current + x] + Pieces(rest, [c], "")
    decreases |x|
  {
    var s := x + [c] + rest;
    if x == [] {
      assert s[..1] == [c];
      assert s[1..] == rest;
      assert current + x == current;
    } else {
      assert s[..1] != [c] by { assert s[0] == x[0] != c; }
      assert s[1..] == x[1..] + [c] + rest;
      PiecesOfPlainThenSep(x[1..], c, rest, current + [x[0]]);
      assert current + [x[0]] + x[1..] == current + x;
    }
  }

  /** Splitting the joined pieces on a one-character separator none of them contains gives them back. */
  lemma {:induction false} PiecesOfJoin(pieces: seq<string>, c: char)
    requires pieces != []
    requires forall k :: 0 <= k < |pieces| ==> c !in pieces[k]
    ensures Pieces(Join(pieces, [c]), [c], "") == pieces
  {
    if |pieces| == 1 {
      PiecesOfPlain(pieces[0], c, "");
      assert "" + pieces[0] == pieces[0];
    } else {
      PiecesOfJoin(pieces[1..], c);
      PiecesOfPlainThenSep(pieces[0], c, Join(pieces[1..], [c]), "");
      assert "" + pieces[0] == pieces[0];
      assert [pieces[0]] + pieces[1..] == pieces;
    }
  }

  /**
   * Join and Split are inverse on non-empty pieces that do not contain the
   * one-character separator.
   */
  lemma SplitJoin(pieces: seq<string>, c: char)
    requires pieces != []
    requires forall k :: 0 <= k < |pieces| ==> pieces[k] != "" && c !in pieces[k]
    ensures Split(Join(pieces, [c]), [c]) == pieces
  {
    PiecesOfJoin(pieces, c);
  }
}
