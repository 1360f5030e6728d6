/**
 * Joining strings with a separator and splitting them apart again: the reference
 * by which the lines of the Abaqus output, and the fields of each line, are read back.
 */
module Text {

  /** `parts` joined with `sep` between neighbours. */
  function Join(parts: seq<string>, sep: char): string
    decreases |parts|
  {
    if |parts| == 0 then ""
    else if |parts| == 1 then parts[0]
    else parts[0] + [sep] + Join(parts[1..], sep)
  }

  /** The pieces of `s` between occurrences of `sep` (Rust's `str::split`). */
  function Split(s: string, sep: char): (r: seq<string>)
    ensures |r| >= 1
    decreases |s|
  {
    if |s| == 0 then [""]
    else
      var rest := Split(s[1..], sep);
      if s[0] == sep then [""] + rest else [[s[0]] + rest[0]] + rest[1..]
  }

  /** The lines `rows`, each followed by a newline. */
  function Terminated(rows: seq<string>): string
    decreases |rows|
  {
    if rows == [] then "" else Terminated(rows[..|rows| - 1]) + rows[|rows| - 1] + "\n"
  }

  /** The number of occurrences of `c` in `s`. */
  function Count(s: string, c: char): nat
    decreases |s|
  {
    if s == [] then 0 else Count(s[..|s| - 1], c) + (if s[|s| - 1] == c then 1 else 0)
  }

  /** A piece without the separator is split into itself. */
  lemma {:induction false} SplitPlain(p: string, sep: char)
    requires sep !in p
    ensures Split(p, sep) == [p]
    decreases |p|
  {
    if |p| > 0 {
      SplitPlain(p[1..], sep);
      assert [p[0]] + p[1..] == p;
    }
  }

  /** Splitting stops at the first separator. */
  lemma {:induction false} SplitFirst(p: string, sep: char, rest: string)
    requires sep !in p
    ensures Split(p + [sep] + rest, sep) == [p] + Split(rest, sep)
    decreases |p|
  {
    var s := p + [sep] + rest;
    if |p| == 0 {
      assert s == [sep] + rest;
      assert s[1..] == rest;
    } else {
      assert s[1..] == p[1..] + [sep] + rest;
      SplitFirst(p[1..], sep, rest);
      assert [p[0]] + p[1..] == p;
    }
  }

  /** Splitting undoes joining, when no piece holds the separator. */
  lemma {:induction false} SplitJoin(parts: seq<string>, sep: char)
    requires |parts| >= 1
    requires forall i :: 0 <= i < |parts| ==> sep !in parts[i]
    ensures Split(Join(parts, sep), sep) == parts
    decreases |parts|
  {
    if |parts| == 1 {
      SplitPlain(parts[0], sep);
    } else {
      SplitJoin(parts[1..], sep);
      SplitFirst(parts[0], sep, Join(parts[1..], sep));
      assert [parts[0]] + parts[1..] == parts;
    }
  }

  /** Lines each followed by a newline are the lines joined by newlines, plus one empty last piece. */
  lemma {:induction false} TerminatedIsJoin(rows: seq<string>)
    ensures Terminated(rows) == Join(rows + [""], '\n')
    decreases |rows|
  {
    if rows != [] {
      var init := rows[..|rows| - 1];
      TerminatedIsJoin(init);
      JoinSnoc(init + [""], rows[|rows| - 1]);
      assert (init + [""])[..|init|] == init;
      assert rows + [""] == init + [rows[|rows| - 1], ""];
    }
  }

  /** Replacing an empty last piece with `x` and adding a new empty piece. */
  lemma {:induction false} JoinSnoc(parts: seq<string>, x: string)
    requires |parts| >= 1 && parts[|parts| - 1] == ""
    ensures Join(parts[..|parts| - 1] + [x, ""], '\n') == Join(parts, '\n') + x + "\n"
    decreases |parts|
  {
    if |parts| == 1 {
      assert parts[..0] + [x, ""] == [x, ""];
      assert Join([""], '\n') == "";
    } else {
      var tail := parts[1..];
      JoinSnoc(tail, x);
      assert (parts[..|parts| - 1] + [x, ""])[1..] == tail[..|tail| - 1] + [x, ""];
    }
  }

  /** The lines of a block of newline-terminated lines are read back exactly. */
  lemma {:induction false} SplitTerminated(rows: seq<string>)
    requires forall i :: 0 <= i < |rows| ==> '\n' !in rows[i]
    ensures Split(Terminated(rows), '\n') == rows + [""]
  {
    TerminatedIsJoin(rows);
    SplitJoin(rows + [""], '\n');
  }

  /** Counting distributes over concatenation. */
  lemma {:induction false} CountAppend(s: string, t: string, c: char)
    ensures Count(s + t, c) == Count(s, c) + Count(t, c)
    decreases |t|
  {
    if t == [] {
      assert s + t == s;
    } else {
      var t' := t[..|t| - 1];
      CountAppend(s, t', c);
      assert (s + t)[..|s + t| - 1] == s + t';
    }
  }

  /** A string without `c` has no occurrence of it. */
  lemma {:induction false} CountAbsent(s: string, c: char)
    requires c !in s
    ensures Count(s, c) == 0
    decreases |s|
  {
    if s != [] {
      CountAbsent(s[..|s| - 1], c);
    }
  }

  /** Joining one more piece puts one more separator before it. */
  lemma {:induction false} JoinAppend(parts: seq<string>, x: string, sep: char)
    requires |parts| >= 1
    ensures Join(parts + [x], sep) == Join(parts, sep) + ([sep] + x)
    decreases |parts|
  {
    if |parts| == 1 {
      assert (parts + [x])[1..] == [x];
    } else {
      JoinAppend(parts[1..], x, sep);
      assert (parts + [x])[1..] == parts[1..] + [x];
      assert parts[0] + [sep] + (Join(parts[1..], sep) + ([sep] + x))
          == parts[0] + [sep] + Join(parts[1..], sep) + ([sep] + x);
    }
  }

  /** Two blocks of terminated lines, one after the other, are one block. */
  lemma {:induction false} TerminatedConcat(a: seq<string>, b: seq<string>)
    ensures Terminated(a + b) == Terminated(a) + Terminated(b)
    decreases |b|
  {
    if b == [] {
      assert a + b == a;
    } else {
      var b' := b[..|b| - 1];
      TerminatedConcat(a, b');
      assert (a + b)[..|a + b| - 1] == a + b';
    }
  }

  /** A single line, terminated. */
  lemma {:induction false} TerminatedSingle(row: string)
    ensures Terminated([row]) == row + "\n"
  {
    assert [row][..0] == [];
  }

  /** Three pieces joined. */
  lemma {:induction false} JoinThree(a: string, b: string, c: string, sep: char)
    ensures Join([a, b, c], sep) == a + [sep] + b + [sep] + c
  {
    assert [a, b, c][1..] == [b, c] && [b, c][1..] == [c];
    assert Join([c], sep) == c;
    assert Join([b, c], sep) == b + [sep] + c;
    assert a + [sep] + (b + [sep] + c) == a + [sep] + b + [sep] + c;
  }

  /** Four pieces joined. */
  lemma {:induction false} JoinFour(a: string, b: string, c: string, d: string, sep: char)
    ensures Join([a, b, c, d], sep) == a + [sep] + b + [sep] + c + [sep] + d
  {
    assert [a, b, c, d][1..] == [b, c, d];
    JoinThree(b, c, d, sep);
    assert a + [sep] + (b + [sep] + c + [sep] + d) == a + [sep] + b + [sep] + c + [sep] + d;
  }

  /** Four pieces without the separator, joined by it, split back into the four. */
  lemma {:induction false} SplitFour(a: string, b: string, c: string, d: string, sep: char)
    requires sep !in a && sep !in b && sep !in c && sep !in d
    ensures Split(a + [sep] + b + [sep] + c + [sep] + d, sep) == [a, b, c, d]
  {
    JoinFour(a, b, c, d, sep);
    SplitJoin([a, b, c, d], sep);
  }
}
