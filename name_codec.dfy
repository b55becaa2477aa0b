/**
 * The text format of a user's full name: the first name and the last name
 * joined by a single dot, and Python's `str.split(".")`, which cuts a text
 * at every dot.
 */
module NameCodec {

  /** The separator between the first and the last name. */
  const Dot: char := '.'

  /** The number of separators in `s`. */
  function DotCount(s: string): (n: nat)
  {
    if s == [] then 0 else (if s[0] == Dot then 1 else 0) + DotCount(s[1..])
  }

  /** The full name read back from the two fields: `first + "." + last`. */
  function Join(first: string, last: string): (full: string)
    ensures |full| == |first| + 1 + |last|
    ensures full[..|first|] == first && full[|first|] == Dot && full[|first| + 1..] == last
  {
    first + [Dot] + last
  }

  /** `".".join(parts)`: the parts with one separator between neighbours. */
  function JoinAll(parts: seq<string>): (joined: string)
  {
    if |parts| == 0 then []
    else if |parts| == 1 then parts[0]
    else parts[0] + [Dot] + JoinAll(parts[1..])
  }

  /**
   * `s.split(".")`: the pieces of `s` between separators, in order. There is
   * always at least one piece: the empty text splits into one empty piece.
   */
  function Split(s: string): (parts: seq<string>)
    ensures |parts| >= 1
  {
    if s == [] then [[]]
    else
      var rest := Split(s[1..]);
      if s[0] == Dot then [[]] + rest
      else [[s[0]] + rest[0]] + rest[1..]
  }

  /** No piece contains the separator. */
  ghost predicate DotFreeParts(parts: seq<string>)
  {
    forall i :: 0 <= i < |parts| ==> Dot !in parts[i]
  }

  /** Splitting yields one more piece than there are separators. */
  lemma {:induction false} SplitLength(s: string)
    ensures |Split(s)| == DotCount(s) + 1
  {
    if s != [] {
      SplitLength(s[1..]);
    }
  }

  /** The separator occurs in no piece. */
  lemma {:induction false} SplitPartsDotFree(s: string)
    ensures DotFreeParts(Split(s))
  {
    if s != [] {
      SplitPartsDotFree(s[1..]);
      var rest := Split(s[1..]);
      if s[0] != Dot {
        assert Dot !in rest[0];
        assert Dot !in [s[0]] + rest[0];
      }
    }
  }

  /** Prepending a character to the first piece prepends it to the joined text. */
  lemma {:induction false} JoinAllPrepend(c: char, parts: seq<string>)
    requires |parts| >= 1
    ensures JoinAll([[c] + parts[0]] + parts[1..]) == [c] + JoinAll(parts)
  {
  }

  /** Joining the pieces with separators gives back the text that was split. */
  lemma {:induction false} JoinAllSplit(s: string)
    ensures JoinAll(Split(s)) == s
  {
    if s != [] {
      JoinAllSplit(s[1..]);
      var rest := Split(s[1..]);
      if s[0] == Dot {
        assert ([[]] + rest)[1..] == rest;
        assert s == [Dot] + s[1..];
      } else {
        JoinAllPrepend(s[0], rest);
        assert s == [s[0]] + s[1..];
      }
    }
  }

  /** A text with no separator is a single piece. */
  lemma {:induction false} SplitWithoutDot(a: string)
    requires Dot !in a
    ensures Split(a) == [a]
  {
    if a != [] {
      SplitWithoutDot(a[1..]);
      assert a == [a[0]] + a[1..];
    }
  }

  /** The text before the first separator is the first piece. */
  lemma {:induction false} SplitAtFirstDot(a: string, t: string)
    requires Dot !in a
    ensures Split(a + [Dot] + t) == [a] + Split(t)
  {
    var s := a + [Dot] + t;
    if a == [] {
      assert s[1..] == t;
    } else {
      assert s[1..] == a[1..] + [Dot] + t;
      assert Dot !in a[1..] by {
        assert forall k :: 0 <= k < |a[1..]| ==> a[1..][k] == a[k + 1];
      }
      SplitAtFirstDot(a[1..], t);
      assert [a[0]] + a[1..] == a;
    }
  }

  /**
   * Splitting a join of separator-free pieces gives back the pieces: together
   * with JoinAllSplit and SplitPartsDotFree this pins Split down uniquely.
   */
  lemma {:induction false} SplitJoinAll(parts: seq<string>)
    requires |parts| >= 1
    requires DotFreeParts(parts)
    ensures Split(JoinAll(parts)) == parts
  {
    if |parts| == 1 {
      SplitWithoutDot(parts[0]);
    } else {
      assert DotFreeParts(parts[1..]) by {
        assert forall i :: 0 <= i < |parts[1..]| ==> parts[1..][i] == parts[i + 1];
      }
      SplitJoinAll(parts[1..]);
      SplitAtFirstDot(parts[0], JoinAll(parts[1..]));
      assert [parts[0]] + parts[1..] == parts;
    }
  }

  /** Split is the only way to cut `s` into separator-free pieces that join back to `s`. */
  lemma SplitUnique(s: string, parts: seq<string>)
    requires |parts| >= 1 && DotFreeParts(parts) && JoinAll(parts) == s
    ensures parts == Split(s)
  {
    SplitJoinAll(parts);
  }

  /** A full name of two separator-free names splits back into the two names. */
  lemma SplitJoin(first: string, last: string)
    requires Dot !in first && Dot !in last
    ensures Split(Join(first, last)) == [first, last]
  {
    SplitAtFirstDot(first, last);
    SplitWithoutDot(last);
  }

  /**
   * A text splits into exactly two pieces if and only if it holds exactly one
   * separator, and then joining the two pieces gives the text back.
   */
  lemma SplitInTwo(s: string)
    ensures |Split(s)| == 2 <==> DotCount(s) == 1
    ensures |Split(s)| == 2 ==> Join(Split(s)[0], Split(s)[1]) == s
    ensures |Split(s)| == 2 ==> Dot !in Split(s)[0] && Dot !in Split(s)[1]
  {
    SplitLength(s);
    JoinAllSplit(s);
    SplitPartsDotFree(s);
    var parts := Split(s);
    if |parts| == 2 {
      assert parts[1..] == [parts[1]];
    }
  }

  /** The separators of a join are those of the two names plus the one between them. */
  lemma {:induction false} DotCountAppend(a: string, b: string)
    ensures DotCount(a + b) == DotCount(a) + DotCount(b)
  {
    if a != [] {
      assert (a + b)[0] == a[0];
      assert (a + b)[1..] == a[1..] + b;
      DotCountAppend(a[1..], b);
    } else {
      assert a + b == b;
    }
  }

  /** A text has a separator exactly when its count is positive. */
  lemma {:induction false} DotCountPositive(s: string)
    ensures DotCount(s) > 0 <==> Dot in s
  {
    if s != [] {
      DotCountPositive(s[1..]);
      assert s == [s[0]] + s[1..];
    }
  }

  /**
   * When a name holds a separator itself, its full name splits into more than
   * two pieces, so it cannot be written back through the full name.
   */
  lemma JoinWithDottedName(first: string, last: string)
    requires Dot in first || Dot in last
    ensures |Split(Join(first, last))| > 2
  {
    DotCountAppend(first + [Dot], last);
    DotCountAppend(first, [Dot]);
    assert DotCount([Dot]) == 1;
    DotCountPositive(first);
    DotCountPositive(last);
    SplitLength(Join(first, last));
  }
}
