/**
 * The two JavaScript built-ins that the reading-time formula uses:
 * `String.prototype.split` with a one-character separator, and `Math.ceil`.
 * Strings are sequences of characters; a JavaScript string is a sequence of
 * UTF-16 code units, and nothing here depends on the difference.
 */
module JsBuiltins {

  /** Number of occurrences of `c` in `s`. */
  function Count(s: string, c: char): (n: nat)
    ensures n == multiset(s)[c]
  {
    if s == [] then 0
    else
      assert s == [s[0]] + s[1..];
      (if s[0] == c then 1 else 0) + Count(s[1..], c)
  }

  /**
   * `s.split(sep)` for a one-character separator: the pieces of `s` between
   * occurrences of `sep`, in order. Adjacent separators, and a separator at
   * either end, give empty pieces; the empty string gives the single piece "".
   */
  function Split(s: string, sep: char): (pieces: seq<string>)
    ensures |pieces| >= 1
    ensures forall i :: 0 <= i < |pieces| ==> sep !in pieces[i]
  {
    if s == [] then [""]
    else
      var rest := Split(s[1..], sep);
      if s[0] == sep then [""] + rest
      else [[s[0]] + rest[0]] + rest[1..]
  }

  /** `pieces.join(sep)`: the pieces with one `sep` between neighbours. */
  function Join(pieces: seq<string>, sep: char): (s: string)
    requires |pieces| >= 1
  {
    if |pieces| == 1 then pieces[0]
    else pieces[0] + [sep] + Join(pieces[1..], sep)
  }

  /** Joining a first piece extended by one character on the left. */
  lemma {:induction false} JoinConsFirst(x: char, pieces: seq<string>, sep: char)
    requires |pieces| >= 1
    ensures Join([[x] + pieces[0]] + pieces[1..], sep) == [x] + Join(pieces, sep)
  {
  }

  /** Split loses nothing: joining the pieces with the separator gives back `s`. */
  lemma {:induction false} JoinSplit(s: string, sep: char)
    ensures Join(Split(s, sep), sep) == s
  {
    if s != [] {
      var rest := Split(s[1..], sep);
      JoinSplit(s[1..], sep);
      if s[0] == sep {
        var p := [""] + rest;
        assert p[1..] == rest;
        assert Join(p, sep) == [sep] + s[1..];
      } else {
        JoinConsFirst(s[0], rest, sep);
      }
      assert s == [s[0]] + s[1..];
    }
  }

  /** `s.split(sep).length` is one more than the number of separators in `s`. */
  lemma {:induction false} SplitLength(s: string, sep: char)
    ensures |Split(s, sep)| == Count(s, sep) + 1
  {
    if s != [] {
      SplitLength(s[1..], sep);
    }
  }

  /** A string without the separator splits into itself alone. */
  lemma {:induction false} SplitWithoutSeparator(s: string, sep: char)
    requires sep !in s
    ensures Split(s, sep) == [s]
  {
    if s != [] {
      SplitWithoutSeparator(s[1..], sep);
      assert s == [s[0]] + s[1..];
    }
  }

  /** Splitting text that begins with a separator-free piece `u` puts `u` in front of the first piece. */
  lemma {:induction false} SplitAfterPiece(u: string, w: string, sep: char)
    requires sep !in u
    ensures Split(u + w, sep) == [u + Split(w, sep)[0]] + Split(w, sep)[1..]
  {
    if u == [] {
      var x := Split(w, sep);
      assert u + w == w && u + x[0] == x[0];
      assert x == [x[0]] + x[1..];
    } else {
      SplitAfterPiece(u[1..], w, sep);
      assert u + w == [u[0]] + (u[1..] + w);
      SplitCons(u[0], u[1..] + w, sep);
      assert [u[0]] + (u[1..] + Split(w, sep)[0]) == u + Split(w, sep)[0];
    }
  }

  /**
   * Join is undone by split as well: separator-free pieces, joined with the
   * separator, split back into the same pieces.
   */
  lemma {:induction false} SplitJoin(pieces: seq<string>, sep: char)
    requires |pieces| >= 1
    requires forall i :: 0 <= i < |pieces| ==> sep !in pieces[i]
    ensures Split(Join(pieces, sep), sep) == pieces
  {
    if |pieces| == 1 {
      SplitWithoutSeparator(pieces[0], sep);
    } else {
      var v := Join(pieces[1..], sep);
      SplitJoin(pieces[1..], sep);
      SplitCons(sep, v, sep);
      assert pieces[0] + [sep] + v == pieces[0] + ([sep] + v);
      SplitAfterPiece(pieces[0], [sep] + v, sep);
      var x := [""] + pieces[1..];
      assert x[0] == "" && x[1..] == pieces[1..];
      assert pieces[0] + "" == pieces[0];
      assert [pieces[0]] + pieces[1..] == pieces;
    }
  }

  /** Split unfolded once on a string whose first character is given. */
  lemma SplitCons(c: char, s: string, sep: char)
    ensures Split([c] + s, sep) ==
      if c == sep then [""] + Split(s, sep)
      else [[c] + Split(s, sep)[0]] + Split(s, sep)[1..]
  {
  }

  /** Only the space separates: a newline stays inside a piece, and two spaces give an empty piece. */
  lemma SplitExamples()
    ensures Split("one\ntwo", ' ') == ["one\ntwo"]
    ensures Split("a  b", ' ') == ["a", "", "b"]
    ensures Split("", ' ') == [""]
  {
    SplitWithoutSeparator("b", ' ');
    assert " b" == [' '] + "b";
    SplitCons(' ', "b", ' ');
    assert Split(" b", ' ') == ["", "b"];
    assert "  b" == [' '] + " b";
    SplitCons(' ', " b", ' ');
    assert Split("  b", ' ') == ["", "", "b"];
    assert "a  b" == ['a'] + "  b";
    SplitCons('a', "  b", ' ');
    assert ['a'] + "" == "a";
    SplitWithoutSeparator("one\ntwo", ' ');
  }

  /** `Math.ceil` on an exact real: the least integer not below `x`. */
  function Ceil(x: real): (r: int)
    ensures (r - 1) as real < x <= r as real
  {
    -((-x).Floor)
  }
}
