/** Shared vocabulary of the model: optional values and results (for Python's
    `None` and raised exceptions), an append-only text stream (for the file
    objects the engine writes to), and the few string operations Python code
    gets from `str`. */
module Base {

  datatype Option<T> = None | Some(value: T)

  datatype Result<T, E> = Ok(value: T) | Err(error: E)

  /** A text stream opened for writing. `written` holds the strings passed to
      `write`, one element per call, so that the number of rows written can
      be counted; the file's text is their concatenation. */
  class Stream {
    var written: seq<string>

    constructor ()
      ensures written == []
    {
      written := [];
    }

    /** `fp.write(s)`: appends exactly `s`, no terminator is added. */
    method Write(s: string)
      modifies this
      ensures written == old(written) + [s]
    {
      written := written + [s];
    }
  }

  /** `''.join(chunks)` */
  function Concat(chunks: seq<string>): string
  {
    if chunks == [] then "" else chunks[0] + Concat(chunks[1..])
  }

  lemma {:induction false} ConcatAppend(a: seq<string>, b: seq<string>)
    ensures Concat(a + b) == Concat(a) + Concat(b)
  {
    if a == [] {
      assert a + b == b;
    } else {
      assert (a + b)[0] == a[0];
      assert (a + b)[1..] == a[1..] + b;
      ConcatAppend(a[1..], b);
    }
  }

  /** The text of a single line is that line. */
  lemma ConcatOne(a: string)
    ensures Concat([a]) == a
  {
    assert [a][1..] == [];
  }

  /** The text of three lines is their concatenation. */
  lemma ConcatThree(a: string, b: string, c: string)
    ensures Concat([a, b, c]) == a + (b + c)
  {
    assert [a, b, c][1..] == [b, c] && [b, c][1..] == [c];
    ConcatOne(c);
  }

  /** `sep.join(fields)` */
  function Join(fields: seq<string>, sep: string): string
  {
    if |fields| == 0 then ""
    else if |fields| == 1 then fields[0]
    else fields[0] + sep + Join(fields[1..], sep)
  }

  /** The first field always starts the joined text. */
  lemma JoinStartsWithFirst(fields: seq<string>, sep: string)
    requires fields != []
    ensures fields[0] <= Join(fields, sep)
  {
  }

  /** A character occurring in no field nor in the separator does not occur in the joined text. */
  lemma {:induction false} JoinAvoids(fields: seq<string>, sep: string, c: char)
    requires forall k :: 0 <= k < |fields| ==> c !in fields[k]
    requires c !in sep
    ensures c !in Join(fields, sep)
  {
    if |fields| > 1 {
      JoinAvoids(fields[1..], sep, c);
    }
  }

  /** Python's `t in s` on strings: `t` occurs in `s` as a contiguous block. */
  predicate Contains(s: string, t: string)
    decreases |s|
  {
    t <= s || (s != [] && Contains(s[1..], t))
  }

  /** `t` occurs in `s` starting at position `i`. */
  predicate OccursAt(s: string, t: string, i: int)
  {
    0 <= i <= |s| - |t| && s[i..i + |t|] == t
  }

  /** The recursive definition agrees with the positional one. */
  lemma {:induction false} ContainsIffOccurs(s: string, t: string)
    ensures Contains(s, t) <==> exists i :: OccursAt(s, t, i)
    decreases |s|
  {
    if t <= s {
      assert OccursAt(s, t, 0);
    } else if s == [] {
    } else {
      ContainsIffOccurs(s[1..], t);
      if Contains(s[1..], t) {
        var i :| OccursAt(s[1..], t, i);
        assert s[1..][i..i + |t|] == s[i + 1..i + 1 + |t|];
        assert OccursAt(s, t, i + 1);
      } else {
        forall i | OccursAt(s, t, i) ensures OccursAt(s[1..], t, i - 1) {
          assert s[1..][i - 1..i - 1 + |t|] == s[i..i + |t|];
        }
      }
    }
  }

  /** Whatever occurs in `a` or in `b` occurs in `a + b`. */
  lemma {:induction false} ContainsInConcat(a: string, b: string, t: string)
    ensures Contains(a, t) ==> Contains(a + b, t)
    ensures Contains(b, t) ==> Contains(a + b, t)
    decreases |a|
  {
    if a != [] {
      assert (a + b)[1..] == a[1..] + b;
      ContainsInConcat(a[1..], b, t);
      if t <= a {
        assert (a + b)[..|t|] == a[..|t|];
      }
    } else {
      assert a + b == b;
    }
  }

  /** `s.endswith(suffix)` */
  predicate EndsWith(s: string, suffix: string)
  {
    |suffix| <= |s| && s[|s| - |suffix|..] == suffix
  }

  /** Length of the first line of `t` as Python's line iteration reads it:
      up to and including the first "\n", or all of `t` when it has none. */
  function LineLength(t: string): (n: nat)
    requires t != []
    ensures 0 < n <= |t|
    ensures '\n' !in t[..n - 1]
    ensures n < |t| ==> t[n - 1] == '\n'
  {
    if t[0] == '\n' || |t| == 1 then 1
    else
      var m := LineLength(t[1..]);
      assert t[1..][..m - 1] == t[1..m];
      1 + m
  }

  /** `list(io.StringIO(t))`: the lines a text file yields when iterated,
      each keeping its "\n" terminator; a last line without one is yielded too. */
  function SplitLines(t: string): seq<string>
    decreases |t|
  {
    if t == [] then []
    else
      var n := LineLength(t);
      [t[..n]] + SplitLines(t[n..])
  }

  /** A line that ends with its only "\n". */
  predicate Terminated(line: string)
  {
    line != [] && line[|line| - 1] == '\n' && '\n' !in line[..|line| - 1]
  }

  /** The line iteration splits after a terminated first line. */
  lemma {:induction false} LineLengthOfTerminated(a: string, b: string)
    requires Terminated(a)
    ensures LineLength(a + b) == |a|
    decreases |a|
  {
    if |a| > 1 {
      assert (a + b)[0] == a[0] && a[0] != '\n';
      assert (a + b)[1..] == a[1..] + b;
      assert a[1..][..|a[1..]| - 1] == a[..|a| - 1][1..];
      LineLengthOfTerminated(a[1..], b);
    }
  }

  /** A last line without a terminator is read whole. */
  lemma {:induction false} LineLengthOfUnterminated(c: string)
    requires c != [] && '\n' !in c
    ensures LineLength(c) == |c|
  {
    if |c| > 1 {
      LineLengthOfUnterminated(c[1..]);
    }
  }

  /** Splitting the concatenation of terminated lines followed by at most
      one unterminated line gives back those lines. */
  lemma {:induction false} SplitConcat(lines: seq<string>, last: string)
    requires forall k :: 0 <= k < |lines| ==> Terminated(lines[k])
    requires '\n' !in last
    ensures SplitLines(Concat(lines) + last) == lines + (if last == "" then [] else [last])
  {
    var lastLine := if last == "" then [] else [last];
    if lines == [] {
      assert Concat(lines) + last == last;
      SplitUnterminated(last);
    } else {
      var rest := Concat(lines[1..]) + last;
      assert Concat(lines) + last == lines[0] + rest;
      SplitAfterTerminated(lines[0], rest);
      SplitConcat(lines[1..], last);
      assert SplitLines(rest) == lines[1..] + lastLine;
      assert lines == [lines[0]] + lines[1..];
      assert [lines[0]] + (lines[1..] + lastLine) == lines + lastLine;
    }
  }

  /** A text without "\n" is read as one line, or none when it is empty. */
  lemma SplitUnterminated(last: string)
    requires '\n' !in last
    ensures SplitLines(last) == if last == "" then [] else [last]
  {
    if last != "" {
      LineLengthOfUnterminated(last);
      assert last[..|last|] == last;
      assert last[|last|..] == [];
    }
  }

  /** A terminated first line is read on its own. */
  lemma SplitAfterTerminated(a: string, rest: string)
    requires Terminated(a)
    ensures SplitLines(a + rest) == [a] + SplitLines(rest)
  {
    LineLengthOfTerminated(a, rest);
    assert (a + rest)[..|a|] == a;
    assert (a + rest)[|a|..] == rest;
  }
}
