/**
 * Splitting on and joining with a separator, as the core does with `.`:
 * String.split("\\.") to break a name or an address into fields, and
 * StringJoiner / Collectors.joining(".") to put them back together.
 */
module Text {

  /** Every separator splits: n separators give n + 1 pieces. */
  function Split<T(==)>(s: seq<T>, sep: T): (parts: seq<seq<T>>)
    ensures |parts| >= 1
    decreases |s|
  {
    if |s| == 0 then [[]]
    else
      var rest := Split(s[1..], sep);
      if s[0] == sep then [[]] + rest
      else [[s[0]] + rest[0]] + rest[1..]
  }

  function Join<T>(parts: seq<seq<T>>, sep: T): seq<T> {
    if |parts| == 0 then []
    else if |parts| == 1 then parts[0]
    else parts[0] + [sep] + Join(parts[1..], sep)
  }

  function DropTrailingEmpty<T>(parts: seq<seq<T>>): (r: seq<seq<T>>)
    ensures |r| <= |parts| && r == parts[..|r|]
    ensures |r| > 0 ==> r[|r| - 1] != []
    ensures forall k :: |r| <= k < |parts| ==> parts[k] == []
  {
    if |parts| == 0 then []
    else if parts[|parts| - 1] == [] then DropTrailingEmpty(parts[..|parts| - 1])
    else parts
  }

  /**
   * Java's String.split with a limit of 0: an input without a separator
   * comes back whole (so "" gives [""]); otherwise trailing empty pieces
   * are removed ("a.b." gives ["a", "b"]).
   */
  function JavaSplit<T(==)>(s: seq<T>, sep: T): (r: seq<seq<T>>)
    ensures NoSep(r, sep)
    ensures sep !in s ==> r == [s]
    ensures |s| > 0 && |r| > 0 ==> r[|r| - 1] != []
  {
    if |s| == 0 then [s]
    else
      SplitNoSep(s, sep);
      SplitWhole(s, sep);
      DropTrailingEmpty(Split(s, sep))
  }

  /** Without a separator there is just one piece. */
  lemma SplitWhole<T>(s: seq<T>, sep: T)
    ensures sep !in s ==> Split(s, sep) == [s]
  {
    if sep !in s {
      SplitSepFree(s, sep);
    }
  }

  predicate NoSep<T(==)>(parts: seq<seq<T>>, sep: T) {
    forall i :: 0 <= i < |parts| ==> sep !in parts[i]
  }

  lemma {:induction false} SplitNoSep<T>(s: seq<T>, sep: T)
    ensures NoSep(Split(s, sep), sep)
    decreases |s|
  {
    if |s| > 0 {
      SplitNoSep(s[1..], sep);
    }
  }

  lemma {:induction false} JoinSplit<T>(s: seq<T>, sep: T)
    ensures Join(Split(s, sep), sep) == s
    decreases |s|
  {
    if |s| > 0 {
      var rest := Split(s[1..], sep);
      JoinSplit(s[1..], sep);
      if s[0] == sep {
        assert Split(s, sep) == [[]] + rest;
        assert ([[]] + rest)[1..] == rest;
      } else {
        var parts := Split(s, sep);
        assert parts == [[s[0]] + rest[0]] + rest[1..];
        if |rest| == 1 {
          assert parts == [[s[0]] + rest[0]];
        } else {
          assert parts[1..] == rest[1..];
          assert Join(rest, sep) == rest[0] + [sep] + Join(rest[1..], sep);
        }
      }
    }
  }

  lemma {:induction false} SplitJoin<T>(parts: seq<seq<T>>, sep: T)
    requires |parts| >= 1 && NoSep(parts, sep)
    ensures Split(Join(parts, sep), sep) == parts
    decreases parts
  {
    if |parts| == 1 {
      SplitSepFree(parts[0], sep);
    } else {
      var tail := Join(parts[1..], sep);
      SplitJoin(parts[1..], sep);
      SplitPrefix(parts[0], tail, sep);
      assert [parts[0]] + parts[1..] == parts;
    }
  }

  lemma {:induction false} SplitSepFree<T>(s: seq<T>, sep: T)
    requires sep !in s
    ensures Split(s, sep) == [s]
    decreases |s|
  {
    if |s| > 0 {
      SplitSepFree(s[1..], sep);
      assert [s[0]] + s[1..] == s;
    }
  }

  /** A separator-free prefix followed by the separator starts a new piece. */
  lemma {:induction false} SplitPrefix<T>(a: seq<T>, b: seq<T>, sep: T)
    requires sep !in a
    ensures Split(a + [sep] + b, sep) == [a] + Split(b, sep)
    decreases |a|
  {
    if |a| == 0 {
      assert a + [sep] + b == [sep] + b;
      assert ([sep] + b)[1..] == b;
    } else {
      var s := a + [sep] + b;
      assert s[1..] == a[1..] + [sep] + b;
      SplitPrefix(a[1..], b, sep);
      assert [a[0]] + a[1..] == a;
    }
  }

  /** Joining pieces whose last one is non-empty, then Java-splitting, gives them back. */
  lemma JavaSplitJoin<T>(parts: seq<seq<T>>, sep: T)
    requires |parts| >= 1 && NoSep(parts, sep) && parts[|parts| - 1] != []
    ensures JavaSplit(Join(parts, sep), sep) == parts
  {
    SplitJoin(parts, sep);
    if |Join(parts, sep)| == 0 {
      JoinEmpty(parts, sep);
    }
  }

  lemma {:induction false} JoinEmpty<T>(parts: seq<seq<T>>, sep: T)
    requires |parts| >= 1 && parts[|parts| - 1] != []
    ensures |Join(parts, sep)| > 0
    decreases parts
  {
    if |parts| > 1 {
      JoinEmpty(parts[1..], sep);
    }
  }
}
