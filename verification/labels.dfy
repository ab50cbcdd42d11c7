/** Splitting a string on a separator character, the way Rust's `str::split`
    with a `char` pattern does, and the "first label" of a hostname that
    `Options::server_id` reads with `split('.').next().unwrap()`. */
module Labels {

  /** The pieces of `s` between occurrences of `sep`, in order. Like
      `str::split`, an empty string yields one empty piece and a trailing
      separator yields a trailing empty piece, so there is always a first
      piece: the `unwrap` on `next()` cannot fail. */
  function Split(s: string, sep: char): (r: seq<string>)
    ensures |r| >= 1
    ensures forall i :: 0 <= i < |r| ==> sep !in r[i]
    ensures Join(r, sep) == s
    decreases |s|
  {
    if |s| == 0 then [""]
    else
      var rest := Split(s[1..], sep);
      if s[0] == sep then
        [""] + rest
      else
        JoinConsFirst(s[0], rest, sep);
        [[s[0]] + rest[0]] + rest[1..]
  }

  /** The inverse of `Split`: the pieces glued back together with `sep`. */
  function Join(pieces: seq<string>, sep: char): string
    requires |pieces| >= 1
    decreases |pieces|
  {
    if |pieces| == 1 then pieces[0]
    else pieces[0] + [sep] + Join(pieces[1..], sep)
  }

  /** Prepending a character to the first piece prepends it to the joined string. */
  lemma JoinConsFirst(c: char, pieces: seq<string>, sep: char)
    requires |pieces| >= 1
    ensures Join([[c] + pieces[0]] + pieces[1..], sep) == [c] + Join(pieces, sep)
  {
    var q := [[c] + pieces[0]] + pieces[1..];
    assert q[1..] == pieces[1..];
  }

  /** `l` is the text of `s` before its first `sep`, or all of `s` when it has none. */
  ghost predicate IsFirstLabel(l: string, s: string, sep: char)
  {
    && l <= s
    && sep !in l
    && (|l| == |s| || s[|l|] == sep)
  }

  /** `hostname.split(sep).next().unwrap()`. */
  function FirstLabel(s: string, sep: char): (r: string)
    ensures IsFirstLabel(r, s, sep)
  {
    var pieces := Split(s, sep);
    JoinFirstPiece(pieces, sep);
    pieces[0]
  }

  /** The joined string starts with the first piece, followed by a separator
      when there is more than one piece. */
  lemma JoinFirstPiece(pieces: seq<string>, sep: char)
    requires |pieces| >= 1
    ensures pieces[0] <= Join(pieces, sep)
    ensures |pieces| > 1 ==> |pieces[0]| < |Join(pieces, sep)| && Join(pieces, sep)[|pieces[0]|] == sep
    ensures |pieces| == 1 ==> Join(pieces, sep) == pieces[0]
  {
  }

  /** At most one string is the first label of `s`. */
  lemma FirstLabelUnique(l1: string, l2: string, s: string, sep: char)
    requires IsFirstLabel(l1, s, sep) && IsFirstLabel(l2, s, sep)
    ensures l1 == l2
  {
  }

  /** `FirstLabel` computes the one and only first label. */
  lemma FirstLabelCharacterized(s: string, sep: char)
    ensures forall l :: IsFirstLabel(l, s, sep) <==> l == FirstLabel(s, sep)
  {
    forall l | IsFirstLabel(l, s, sep)
      ensures l == FirstLabel(s, sep)
    {
      FirstLabelUnique(l, FirstLabel(s, sep), s, sep);
    }
  }

  /** A string without a separator is its own first label. */
  lemma NoSeparatorIsWholeString(s: string, sep: char)
    requires sep !in s
    ensures FirstLabel(s, sep) == s
  {
    FirstLabelUnique(FirstLabel(s, sep), s, s, sep);
  }

  /** The first label of `l + [sep] + rest` is `l` when `l` has no separator,
      whatever `rest` holds. */
  lemma FirstLabelOfPrefix(l: string, rest: string, sep: char)
    requires sep !in l
    ensures FirstLabel(l + [sep] + rest, sep) == l
  {
    var s := l + [sep] + rest;
    assert s[|l|] == sep;
    assert l <= s;
    FirstLabelUnique(FirstLabel(s, sep), l, s, sep);
  }

  /** Splitting the join of separator-free pieces gives the pieces back, so
      `Split` and `Join` are mutually inverse. */
  lemma {:induction false} SplitJoin(pieces: seq<string>, sep: char)
    requires |pieces| >= 1
    requires forall i :: 0 <= i < |pieces| ==> sep !in pieces[i]
    ensures Split(Join(pieces, sep), sep) == pieces
    decreases |pieces|, |pieces[0]|
  {
    var s := Join(pieces, sep);
    if |pieces[0]| == 0 {
      if |pieces| == 1 {
        assert s == "";
      } else {
        assert s == [sep] + Join(pieces[1..], sep);
        assert s[1..] == Join(pieces[1..], sep);
        SplitJoin(pieces[1..], sep);
        assert [""] + pieces[1..] == pieces;
      }
    } else {
      var c := pieces[0][0];
      var tail := [pieces[0][1..]] + pieces[1..];
      assert tail[1..] == pieces[1..];
      assert forall i :: 0 <= i < |tail| ==> sep !in tail[i] by {
        forall i | 0 <= i < |tail|
          ensures sep !in tail[i]
        {
          if i == 0 {
            assert pieces[0] == [c] + tail[0];
          } else {
            assert tail[i] == pieces[i];
          }
        }
      }
      assert pieces[0] == [c] + tail[0];
      JoinConsFirst(c, tail, sep);
      assert [[c] + tail[0]] + tail[1..] == pieces;
      assert s == [c] + Join(tail, sep);
      assert c != sep by { assert c == pieces[0][0]; }
      assert s[1..] == Join(tail, sep);
      SplitJoin(tail, sep);
    }
  }
}
