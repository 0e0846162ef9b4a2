/** String operations the script relies on, with Python 2 `str` semantics:
    `s.split(c)` for a one-character separator, `s.replace(p, "")` and
    `s.endswith(p)`. */
module Text {

  /** Number of occurrences of `c` in `s`. */
  function Count(s: string, c: char): nat
  {
    if s == [] then 0 else (if s[0] == c then 1 else 0) + Count(s[1..], c)
  }

  /** Counting distributes over concatenation. */
  lemma {:induction false} CountSplit(a: string, b: string, c: char)
    ensures Count(a + b, c) == Count(a, c) + Count(b, c)
  {
    if a != [] {
      assert (a + b)[1..] == a[1..] + b;
      CountSplit(a[1..], b, c);
    } else {
      assert a + b == b;
    }
  }

  /** A string without `c` counts no `c`. */
  lemma {:induction false} CountAbsent(s: string, c: char)
    requires c !in s
    ensures Count(s, c) == 0
  {
    if s != [] {
      CountAbsent(s[1..], c);
    }
  }

  /** `s.split(sep)`: every occurrence of `sep` ends a field, so doubled
      separators give empty fields and a string without `sep` is one field. */
  function Split(s: string, sep: char): (fields: seq<string>)
    ensures |fields| == Count(s, sep) + 1
    ensures forall k :: 0 <= k < |fields| ==> sep !in fields[k]
  {
    if s == [] then [""]
    else if s[0] == sep then [""] + Split(s[1..], sep)
    else
      var rest := Split(s[1..], sep);
      [[s[0]] + rest[0]] + rest[1..]
  }

  /** `sep.join(fields)`: the inverse of `Split`. */
  function Join(fields: seq<string>, sep: char): string
    requires |fields| > 0
  {
    if |fields| == 1 then fields[0] else fields[0] + [sep] + Join(fields[1..], sep)
  }

  /** Joining the fields of a split gives back the string. */
  lemma {:induction false} JoinSplit(s: string, sep: char)
    ensures Join(Split(s, sep), sep) == s
  {
    if s == [] {
    } else if s[0] == sep {
      JoinSplit(s[1..], sep);
      assert Split(s, sep)[1..] == Split(s[1..], sep);
      assert s == [sep] + s[1..];
    } else {
      var rest := Split(s[1..], sep);
      JoinSplit(s[1..], sep);
      if |rest| == 1 {
        assert s == [s[0]] + rest[0];
      } else {
        assert Split(s, sep)[1..] == rest[1..];
        assert Join(rest, sep) == rest[0] + [sep] + Join(rest[1..], sep);
        assert s == [s[0]] + s[1..];
      }
    }
  }

  /** Splitting a join of separator-free fields gives back the fields. */
  lemma {:induction false} SplitJoin(fields: seq<string>, sep: char)
    requires |fields| > 0
    requires forall k :: 0 <= k < |fields| ==> sep !in fields[k]
    ensures Split(Join(fields, sep), sep) == fields
  {
    if |fields| == 1 {
      SplitNoSeparator(fields[0], sep);
    } else {
      SplitJoin(fields[1..], sep);
      SplitNoSeparator(fields[0], sep);
      SplitAround(fields[0], Join(fields[1..], sep), sep);
      assert [fields[0]] + fields[1..] == fields;
    }
  }

  /** A string without the separator is a single field. */
  lemma {:induction false} SplitNoSeparator(s: string, sep: char)
    requires sep !in s
    ensures Split(s, sep) == [s]
  {
    if s != [] {
      SplitNoSeparator(s[1..], sep);
      assert [s[0]] + s[1..] == s;
    }
  }

  /** One separator between `a` and `b` splits them apart: the fields of the
      whole are those of `a` followed by those of `b`. */
  lemma {:induction false} SplitAround(a: string, b: string, sep: char)
    ensures Split(a + [sep] + b, sep) == Split(a, sep) + Split(b, sep)
  {
    if a == [] {
      assert a + [sep] + b == [sep] + b;
      assert ([sep] + b)[1..] == b;
    } else {
      var s := a + [sep] + b;
      assert s[0] == a[0];
      assert s[1..] == a[1..] + [sep] + b;
      SplitAround(a[1..], b, sep);
    }
  }

  /** The text before the first occurrence of `c`, read character by
      character: the reference meaning of `s.split(c)[0]`. */
  function Before(s: string, c: char): (r: string)
    ensures c !in r
    ensures |r| <= |s| && r == s[..|r|]
    ensures |r| == |s| || s[|r|] == c
  {
    if s == [] || s[0] == c then "" else [s[0]] + Before(s[1..], c)
  }

  /** The first field of a split is the text before the first separator. */
  lemma {:induction false} FirstFieldIsBefore(s: string, c: char)
    ensures Split(s, c)[0] == Before(s, c)
  {
    if s != [] && s[0] != c {
      FirstFieldIsBefore(s[1..], c);
    }
  }

  /** `s.startswith(p)` */
  predicate StartsWith(s: string, p: string)
  {
    |p| <= |s| && s[..|p|] == p
  }

  /** `s.endswith(p)` */
  predicate EndsWith(s: string, p: string)
  {
    |p| <= |s| && s[|s| - |p|..] == p
  }

  /** `p` occurs in `s` at index `i`. */
  predicate OccursAt(s: string, p: string, i: int)
  {
    0 <= i && i + |p| <= |s| && s[i..i + |p|] == p
  }

  /** `s.replace(p, "")`: scanning left to right, every non-overlapping
      occurrence of the non-empty pattern `p` is dropped. */
  function RemoveAll(s: string, p: string): (r: string)
    requires p != ""
    ensures |r| <= |s|
    ensures forall k :: 0 <= k < |r| ==> r[k] in s
  {
    if |s| < |p| then s
    else if s[..|p|] == p then RemoveAll(s[|p|..], p)
    else [s[0]] + RemoveAll(s[1..], p)
  }

  /** Removing a pattern that does not occur changes nothing. */
  lemma {:induction false} RemoveAllAbsent(s: string, p: string)
    requires p != ""
    requires forall i :: !OccursAt(s, p, i)
    ensures RemoveAll(s, p) == s
  {
    if |s| >= |p| {
      assert !OccursAt(s, p, 0);
      forall i ensures !OccursAt(s[1..], p, i) {
        if 0 <= i && i + |p| <= |s[1..]| {
          assert s[1..][i..i + |p|] == s[i + 1..i + 1 + |p|];
          assert !OccursAt(s, p, i + 1);
        }
      }
      RemoveAllAbsent(s[1..], p);
    }
  }

  /** An occurrence of `p` anywhere in the string is removed: when no
      occurrence starts inside the prefix `x`, removing `p` from `x + p + y`
      keeps `x`, drops that occurrence and goes on with `y`. */
  lemma {:induction false} RemoveAllAround(x: string, p: string, y: string)
    requires p != ""
    requires forall i :: 0 <= i < |x| ==> !OccursAt(x + p + y, p, i)
    ensures RemoveAll(x + p + y, p) == x + RemoveAll(y, p)
  {
    var s := x + p + y;
    if x == [] {
      assert s == p + y && s[..|p|] == p && s[|p|..] == y;
    } else {
      assert !OccursAt(s, p, 0);
      assert s[1..] == x[1..] + p + y;
      forall i | 0 <= i < |x[1..]| ensures !OccursAt(x[1..] + p + y, p, i) {
        assert (x[1..] + p + y)[i..i + |p|] == s[i + 1..i + 1 + |p|];
        assert !OccursAt(s, p, i + 1);
      }
      RemoveAllAround(x[1..], p, y);
      assert [x[0]] + (x[1..] + RemoveAll(y, p)) == x + RemoveAll(y, p);
    }
  }

  /** No proper suffix of `p` is also a prefix of it, so two occurrences of
      `p` can never overlap. */
  predicate Borderless(p: string)
  {
    forall k :: 0 < k < |p| ==> p[k..] != p[..|p| - k]
  }

  /** For a borderless pattern it is enough that `x` itself does not
      contain `p`: removing `p` from `x + p` gives `x`. */
  lemma StripSuffix(x: string, p: string)
    requires p != "" && Borderless(p)
    requires forall i :: !OccursAt(x, p, i)
    ensures RemoveAll(x + p, p) == x
  {
    var s := x + p;
    forall i | 0 <= i < |x| ensures !OccursAt(s, p, i) {
      if i + |p| <= |x| {
        assert s[i..i + |p|] == x[i..i + |p|];
        assert !OccursAt(x, p, i);
      } else {
        var k := |x| - i;
        assert s[i..i + |p|][k..] == p[..|p| - k];
        assert p[k..] != p[..|p| - k];
      }
    }
    assert s + "" == s;
    RemoveAllAround(x, p, "");
    assert x + "" == x;
  }
}
