/** The string operations of JavaScript that the layer uses:
    `String.prototype.split` with a one-character separator,
    `Array.prototype.join`, `startsWith` and repeated `+=`. */
module Text {

  /** `s.split(sep)` for a one-character separator. Like JavaScript it always
      yields at least one piece: `"".split("\n")` is `[""]`. */
  function Split(s: string, sep: char): (r: seq<string>)
    ensures |r| >= 1
    decreases |s|
  {
    if s == [] then [""] else Prepend(s[0], Split(s[1..], sep), sep)
  }

  /** The pieces of `[c] + t`, given the pieces of `t`: a separator opens a new
      empty first piece, any other character joins the first piece. */
  function Prepend(c: char, pieces: seq<string>, sep: char): (r: seq<string>)
    requires |pieces| >= 1
    ensures |r| >= 1
  {
    if c == sep then [""] + pieces else [[c] + pieces[0]] + pieces[1..]
  }

  /** One unfolding of Split, stated for a string written as a first character and a tail. */
  lemma SplitCons(c: char, t: string, sep: char)
    ensures Split([c] + t, sep) == Prepend(c, Split(t, sep), sep)
  {
    assert ([c] + t)[1..] == t;
  }

  /** `parts.join(sep)`: the empty list joins to the empty string. */
  function Join(parts: seq<string>, sep: string): string
  {
    if |parts| == 0 then ""
    else if |parts| == 1 then parts[0]
    else parts[0] + sep + Join(parts[1..], sep)
  }

  /** The text received so far when the chunks are appended one after another. */
  function Concat(chunks: seq<string>): string
  {
    if |chunks| == 0 then "" else Concat(chunks[..|chunks| - 1]) + chunks[|chunks| - 1]
  }

  /** `s.startsWith(prefix)`. */
  predicate StartsWith(s: string, prefix: string)
  {
    |prefix| <= |s| && s[..|prefix|] == prefix
  }

  function Last<T>(s: seq<T>): T
    requires |s| > 0
  {
    s[|s| - 1]
  }

  /** Dropping the last element of a concatenation whose right part is non-empty. */
  lemma DropLastOfAppend<T>(a: seq<T>, b: seq<T>)
    requires |b| >= 1
    ensures (a + b)[..|a + b| - 1] == a + b[..|b| - 1]
    ensures Last(a + b) == Last(b)
  {
  }

  /** A separator-free string is a single piece. */
  lemma {:induction false} SplitWithoutSeparator(s: string, sep: char)
    requires sep !in s
    ensures Split(s, sep) == [s]
    decreases |s|
  {
    if s != [] {
      SplitWithoutSeparator(s[1..], sep);
      assert [s[0]] + s[1..] == s;
    }
  }

  /** The pieces `fused` of a concatenation, where the last piece of the left part
      `left` meets the first of the right part `right`. */
  function Fuse(left: seq<string>, right: seq<string>): (r: seq<string>)
    requires |left| >= 1 && |right| >= 1
  {
    left[..|left| - 1] + [Last(left) + right[0]] + right[1..]
  }

  /** Prepending a character commutes with fusing on the right. */
  lemma PrependFuse(c: char, left: seq<string>, right: seq<string>, sep: char)
    requires |left| >= 1 && |right| >= 1
    ensures Prepend(c, Fuse(left, right), sep) == Fuse(Prepend(c, left, sep), right)
  {
    var n := |left|;
    var fusedPiece, tail := Last(left) + right[0], right[1..];
    var front := left[..n - 1];
    assert Fuse(left, right) == front + [fusedPiece] + tail;
    var p := Prepend(c, left, sep);
    if c == sep {
      assert p == [""] + left;
      assert p[..|p| - 1] == [""] + front;
      assert Last(p) == Last(left);
    } else if n == 1 {
      assert p == [[c] + left[0]];
      assert [c] + (left[0] + right[0]) == ([c] + left[0]) + right[0];
    } else {
      assert p == [[c] + left[0]] + left[1..];
      assert p[..n - 1] == [[c] + left[0]] + left[1..n - 1];
      assert Last(p) == Last(left);
      var rest := left[1..n - 1] + [fusedPiece] + tail;
      assert Fuse(left, right) == [left[0]] + rest;
      assert Prepend(c, Fuse(left, right), sep) == [[c] + left[0]] + rest;
    }
  }

  /** Splitting a concatenation: the last piece of `a` and the first piece of `b`
      fuse into one piece; every other piece is kept as it is. */
  lemma {:induction false} SplitAppend(a: string, b: string, sep: char)
    ensures Split(a + b, sep) == Fuse(Split(a, sep), Split(b, sep))
    decreases |a|
  {
    var sb := Split(b, sep);
    if a == [] {
      assert a + b == b;
      assert Split(a, sep) == [""];
      assert "" + sb[0] == sb[0];
      assert sb == [sb[0]] + sb[1..];
    } else {
      var c, t := a[0], a[1..];
      assert a == [c] + t;
      assert a + b == [c] + (t + b);
      SplitAppend(t, b, sep);
      SplitCons(c, t, sep);
      SplitCons(c, t + b, sep);
      PrependFuse(c, Split(t, sep), sb, sep);
    }
  }

  /** The last piece of a split contains no separator. */
  lemma {:induction false} LastPieceSeparatorFree(s: string, sep: char)
    ensures sep !in Last(Split(s, sep))
    decreases |s|
  {
    if s != [] {
      var rest := Split(s[1..], sep);
      LastPieceSeparatorFree(s[1..], sep);
      assert Split(s, sep) == Prepend(s[0], rest, sep);
      if s[0] != sep && |rest| == 1 {
        assert Last(Split(s, sep)) == [s[0]] + Last(rest);
      } else {
        assert Last(Split(s, sep)) == Last(rest);
      }
    }
  }

  /** Splitting `a + b`: the complete pieces of `a` stay, and its last piece is split again
      together with `b`. */
  lemma SplitAfterLastPiece(a: string, b: string, sep: char)
    ensures Split(a + b, sep)
         == Split(a, sep)[..|Split(a, sep)| - 1] + Split(Last(Split(a, sep)) + b, sep)
  {
    var left, right := Split(a, sep), Split(b, sep);
    var last := Last(left);
    SplitAppend(a, b, sep);
    SplitAppend(last, b, sep);
    LastPieceSeparatorFree(a, sep);
    SplitWithoutSeparator(last, sep);
    FuseFront(left, right);
  }

  /** Fusing keeps the front of the left part and fuses only its last piece. */
  lemma FuseFront(left: seq<string>, right: seq<string>)
    requires |left| >= 1 && |right| >= 1
    ensures Fuse(left, right) == left[..|left| - 1] + Fuse([Last(left)], right)
  {
    assert [Last(left)][..0] == [] && Last([Last(left)]) == Last(left);
  }

  /** Joining the pieces of a split with the separator gives back the string. */
  lemma {:induction false} JoinSplit(s: string, sep: char)
    ensures Join(Split(s, sep), [sep]) == s
    decreases |s|
  {
    if s != [] {
      JoinSplit(s[1..], sep);
      var rest := Split(s[1..], sep);
      if s[0] == sep {
        assert ([""] + rest)[1..] == rest;
        assert s == [sep] + s[1..];
      } else {
        var r := [[s[0]] + rest[0]] + rest[1..];
        if |rest| == 1 {
          assert s == [s[0]] + s[1..];
        } else {
          assert r[1..] == rest[1..];
          assert Join(rest, [sep]) == rest[0] + [sep] + Join(rest[1..], [sep]);
          assert s == [s[0]] + s[1..];
        }
      }
    }
  }

  /** Splitting a join of separator-free pieces recovers the pieces, in order. */
  lemma {:induction false} SplitJoin(parts: seq<string>, sep: char)
    requires |parts| >= 1
    requires forall i :: 0 <= i < |parts| ==> sep !in parts[i]
    ensures Split(Join(parts, [sep]), sep) == parts
    decreases |parts|
  {
    SplitWithoutSeparator(parts[0], sep);
    if |parts| > 1 {
      var tail := Join(parts[1..], [sep]);
      SplitJoin(parts[1..], sep);
      assert Join(parts, [sep]) == parts[0] + ([sep] + tail);
      SplitAppend(parts[0], [sep] + tail, sep);
      SplitCons(sep, tail, sep);
      assert Split([sep] + tail, sep) == [""] + parts[1..];
      assert parts[0] + "" == parts[0];
      assert Fuse([parts[0]], [""] + parts[1..]) == [parts[0]] + parts[1..];
      assert parts == [parts[0]] + parts[1..];
    }
  }

  /** `+=` of one more chunk extends the received text by that chunk. */
  lemma ConcatSnoc(chunks: seq<string>, i: nat)
    requires i < |chunks|
    ensures Concat(chunks[..i + 1]) == Concat(chunks[..i]) + chunks[i]
  {
    assert chunks[..i + 1][..i] == chunks[..i];
  }
}
