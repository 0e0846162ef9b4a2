/** Reading the frame-pair manifest: the file cursor that `readline()`
    advances, the parse of one line into three names, and the join of a
    name onto the data directory. */
module Manifest {
  import opened Text
  import opened Failures

  /** Where the line that starts at `pos` ends: just past the next newline,
      or at the end of the text when no newline follows. */
  function LineEnd(text: string, pos: nat): (e: nat)
    requires pos <= |text|
    ensures pos <= e <= |text|
    ensures pos < |text| ==> pos < e
    ensures forall k :: pos <= k < e - 1 ==> text[k] != '\n'
    ensures e == pos || e == |text| || text[e - 1] == '\n'
    ensures e < |text| ==> text[e - 1] == '\n'
    decreases |text| - pos
  {
    if pos == |text| then pos
    else if text[pos] == '\n' then pos + 1
    else LineEnd(text, pos + 1)
  }

  /** An open manifest file: its contents and the read position. */
  class ManifestFile {
    const text: string
    var pos: nat

    ghost predicate Valid()
      reads this
    {
      pos <= |text|
    }

    /** `open(path, 'r')` on a file holding `contents`. */
    constructor Open(contents: string)
      ensures Valid() && text == contents && pos == 0
    {
      text := contents;
      pos := 0;
    }

    /** `readline()`: the text up to and including the next newline, or the
        rest of the file when none follows, and `""` at end of file.  The
        read position moves past what was returned. */
    method ReadLine() returns (line: string)
      requires Valid()
      modifies this
      ensures Valid()
      ensures pos == LineEnd(text, old(pos))
      ensures line == text[old(pos)..pos]
    {
      var i := pos;
      while i < |text| && text[i] != '\n'
        invariant pos <= i <= |text|
        invariant LineEnd(text, i) == LineEnd(text, pos)
      {
        i := i + 1;
      }
      var e := if i < |text| then i + 1 else i;
      line := text[pos..e];
      pos := e;
    }
  }

  /** A line as `readline()` returns it: at end of file it is empty, and a
      newline can only be its last character. */
  lemma ReadLineShape(text: string, pos: nat)
    requires pos <= |text|
    ensures var line := text[pos..LineEnd(text, pos)];
      && (line == "" <==> pos == |text|)
      && (forall k :: 0 <= k < |line| - 1 ==> line[k] != '\n')
      && text[pos..] == line + text[LineEnd(text, pos)..]
  {
    var e := LineEnd(text, pos);
    var line := text[pos..e];
    forall k | 0 <= k < |line| - 1 ensures line[k] != '\n' {
      assert line[k] == text[pos + k];
    }
  }

  /** The read position after `k` further calls of `readline()`. */
  function Cursor(text: string, pos: nat, k: nat): (p: nat)
    requires pos <= |text|
    ensures pos <= p <= |text|
    decreases k
  {
    if k == 0 then pos else Cursor(text, LineEnd(text, pos), k - 1)
  }

  /** One more `readline()` moves the read position to the end of the
      line it stood at. */
  lemma {:induction false} CursorNext(text: string, pos: nat, k: nat)
    requires pos <= |text|
    ensures Cursor(text, pos, k + 1) == LineEnd(text, Cursor(text, pos, k))
    decreases k
  {
    if k > 0 {
      CursorNext(text, LineEnd(text, pos), k - 1);
    }
  }

  /** Number of non-empty lines left from `pos`. */
  function LinesLeft(text: string, pos: nat): nat
    requires pos <= |text|
    decreases |text| - pos
  {
    if pos == |text| then 0 else 1 + LinesLeft(text, LineEnd(text, pos))
  }

  /** After `k` calls of `readline()` the file is exhausted exactly when `k`
      is at least the number of lines that were left. */
  lemma {:induction false} CursorAtEnd(text: string, pos: nat, k: nat)
    requires pos <= |text|
    ensures Cursor(text, pos, k) == |text| <==> k >= LinesLeft(text, pos)
    decreases k
  {
    if k > 0 && pos < |text| {
      CursorAtEnd(text, LineEnd(text, pos), k - 1);
    } else if k > 0 {
      CursorStays(text, pos, k);
    }
  }

  /** At end of file `readline()` no longer moves the read position. */
  lemma {:induction false} CursorStays(text: string, pos: nat, k: nat)
    requires pos == |text|
    ensures Cursor(text, pos, k) == pos
  {
    if k > 0 {
      CursorStays(text, LineEnd(text, pos), k - 1);
    }
  }

  /** The number of lines is the number of newlines, plus one for a last
      line that has no newline. */
  lemma {:induction false} LinesLeftCountsNewlines(text: string, pos: nat)
    requires pos <= |text|
    ensures LinesLeft(text, pos)
         == Count(text[pos..], '\n') + (if pos < |text| && text[|text| - 1] != '\n' then 1 else 0)
    decreases |text| - pos
  {
    if pos < |text| {
      var e := LineEnd(text, pos);
      LinesLeftCountsNewlines(text, e);
      CountSplit(text[pos..e], text[e..], '\n');
      assert text[pos..] == text[pos..e] + text[e..];
      CountLine(text, pos, e);
    }
  }

  /** A line holds one newline if it ends with one and none otherwise. */
  lemma {:induction false} CountLine(text: string, pos: nat, e: nat)
    requires pos < |text| && e == LineEnd(text, pos)
    ensures Count(text[pos..e], '\n') == if text[e - 1] == '\n' then 1 else 0
  {
    var line := text[pos..e];
    assert line == line[..|line| - 1] + [line[|line| - 1]];
    CountSplit(line[..|line| - 1], [line[|line| - 1]], '\n');
    CountAbsent(line[..|line| - 1], '\n');
  }

  /** The three names of a manifest line: key frame, current frame and a
      third name the walk does not use. */
  datatype Entry = Entry(key: string, current: string, aux: string)

  /** `f1, f2, f3 = line.split('\n')[0].split(' ')`: the text before the first
      newline must split on single spaces into exactly three fields. */
  function ParseLine(line: string): (r: Result<Entry>)
    ensures r.Ok? <==> Count(Before(line, '\n'), ' ') == 2
    ensures r.Err? ==> r.error == UnpackError(Count(Before(line, '\n'), ' ') + 1)
    ensures r.Ok? ==> Join([r.value.key, r.value.current, r.value.aux], ' ') == Before(line, '\n')
    ensures r.Ok? ==> ' ' !in r.value.key && ' ' !in r.value.current && ' ' !in r.value.aux
  {
    FirstFieldIsBefore(line, '\n');
    var fields := Split(Split(line, '\n')[0], ' ');
    JoinSplit(Split(line, '\n')[0], ' ');
    if |fields| != 3 then Err(UnpackError(|fields|))
    else
      assert fields == [fields[0], fields[1], fields[2]];
      Ok(Entry(fields[0], fields[1], fields[2]))
  }

  /** Three space-free, newline-free names separated by single spaces are
      read back exactly, whatever follows the newline. */
  lemma ParseLineRoundTrip(key: string, current: string, aux: string, rest: string)
    requires ' ' !in key && ' ' !in current && ' ' !in aux
    requires '\n' !in key && '\n' !in current && '\n' !in aux
    ensures ParseLine(key + " " + current + " " + aux + "\n" + rest) == Ok(Entry(key, current, aux))
  {
    var text := key + " " + current + " " + aux;
    var line := text + "\n" + rest;
    assert [key, current, aux][1..] == [current, aux];
    assert Join([current, aux], ' ') == current + " " + aux;
    assert text == Join([key, current, aux], ' ');
    assert '\n' !in text;
    SplitNoSeparator(text, '\n');
    SplitAround(text, rest, '\n');
    assert line == text + ['\n'] + rest;
    SplitJoin([key, current, aux], ' ');
  }

  /** Two names separated by a doubled space give three fields, so the line
      unpacks, with an empty current-frame name. */
  lemma DoubledSpaceUnpacks(key: string, aux: string, rest: string)
    requires ' ' !in key && ' ' !in aux
    requires '\n' !in key && '\n' !in aux
    ensures ParseLine(key + "  " + aux + "\n" + rest) == Ok(Entry(key, "", aux))
  {
    ParseLineRoundTrip(key, "", aux, rest);
    assert key + " " + "" + " " + aux + "\n" + rest == key + "  " + aux + "\n" + rest;
  }

  /** The empty line that `readline()` returns at end of file is rejected:
      it is a single empty field. */
  lemma EndOfFileRejected()
    ensures ParseLine("") == Err(UnpackError(1))
  {
  }

  /** A line with only two names is rejected. */
  lemma TwoFieldsRejected(key: string, current: string, rest: string)
    requires ' ' !in key && ' ' !in current
    requires '\n' !in key && '\n' !in current
    ensures ParseLine(key + " " + current + "\n" + rest) == Err(UnpackError(2))
  {
    var text := key + " " + current;
    var line := text + "\n" + rest;
    assert '\n' !in text;
    SplitNoSeparator(text, '\n');
    SplitAround(text, rest, '\n');
    assert line == text + ['\n'] + rest;
    assert text == Join([key, current], ' ');
    SplitJoin([key, current], ' ');
  }

  /** `os.path.join(a, b)` on POSIX: an absolute `b` replaces `a`; otherwise
      `b` is appended, after a `/` unless `a` is empty or already ends in
      one. */
  function PathJoin(a: string, b: string): (p: string)
    ensures EndsWith(p, b)
    ensures StartsWith(b, "/") ==> p == b
    ensures !StartsWith(b, "/") ==> StartsWith(p, a) && |p| <= |a| + 1 + |b|
    ensures |a| == 0 ==> p == b
  {
    if StartsWith(b, "/") then b
    else if a == "" || EndsWith(a, "/") then a + b
    else a + "/" + b
  }

  /** `a` without one trailing `/`. */
  function TrimSlash(a: string): string
  {
    if EndsWith(a, "/") then a[..|a| - 1] else a
  }

  /** The components of a relative name joined onto a non-empty directory are
      the directory's components (one trailing `/` dropped) followed by the
      name's own. */
  lemma JoinComponents(a: string, b: string)
    requires a != "" && !StartsWith(b, "/")
    ensures Split(PathJoin(a, b), '/') == Split(TrimSlash(a), '/') + Split(b, '/')
  {
    SplitAround(TrimSlash(a), b, '/');
    if EndsWith(a, "/") {
      assert a == TrimSlash(a) + "/";
      assert PathJoin(a, b) == TrimSlash(a) + ['/'] + b;
    } else {
      assert PathJoin(a, b) == TrimSlash(a) + ['/'] + b;
    }
  }
}
