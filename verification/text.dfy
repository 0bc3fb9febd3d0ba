/**
 * The handful of Go `strings` functions the UI code relies on, over byte
 * strings (each `char` stands for one byte): `strings.Split(s, "\n")`,
 * `strings.Join(lines, sep)` and `strings.Repeat(c, n)`.
 */
module Text {

  /** `strings.Split(s, "\n")`: the pieces between newlines, at least one. */
  function Split(s: string): (r: seq<string>)
    ensures |r| >= 1
    ensures forall i :: 0 <= i < |r| ==> '\n' !in r[i]
    decreases |s|
  {
    if s == [] then [""]
    else
      var rest := Split(s[1..]);
      if s[0] == '\n' then [""] + rest
      else [[s[0]] + rest[0]] + rest[1..]
  }

  /** `strings.Join(lines, sep)`. */
  function Join(lines: seq<string>, sep: string): string
  {
    if |lines| == 0 then ""
    else if |lines| == 1 then lines[0]
    else lines[0] + sep + Join(lines[1..], sep)
  }

  /** `strings.Repeat(string(c), n)` for a non-negative count. */
  function Repeat(c: char, n: nat): (r: string)
    ensures |r| == n
    ensures forall i :: 0 <= i < n ==> r[i] == c
  {
    if n == 0 then [] else [c] + Repeat(c, n - 1)
  }

  /** No line contains a newline. */
  predicate NoNewlines(lines: seq<string>)
  {
    forall i :: 0 <= i < |lines| ==> '\n' !in lines[i]
  }

  lemma JoinCons(a: string, lines: seq<string>, sep: string)
    requires |lines| >= 1
    ensures Join([a] + lines, sep) == a + sep + Join(lines, sep)
  {
    assert ([a] + lines)[1..] == lines;
  }

  /** Joining one more line appends the separator and the line. */
  lemma {:induction false} JoinSnoc(lines: seq<string>, b: string, sep: string)
    requires |lines| >= 1
    ensures Join(lines + [b], sep) == Join(lines, sep) + sep + b
    decreases |lines|
  {
    if |lines| == 1 {
      assert (lines + [b])[1..] == [b];
    } else {
      JoinSnoc(lines[1..], b, sep);
      assert (lines + [b])[1..] == lines[1..] + [b];
    }
  }

  /** Prefixing text to the first of two or more joined lines prefixes the join. */
  lemma JoinExtendHead(a: string, rest: seq<string>, sep: string)
    requires |rest| >= 2
    ensures Join([a + rest[0]] + rest[1..], sep) == a + Join(rest, sep)
  {
    var tail := Join(rest[1..], sep);
    JoinCons(a + rest[0], rest[1..], sep);
    assert rest == [rest[0]] + rest[1..];
    JoinCons(rest[0], rest[1..], sep);
    assert a + rest[0] + sep + tail == a + (rest[0] + sep + tail);
  }

  /** Joining the pieces of a split with "\n" gives back the string. */
  lemma {:induction false} JoinSplit(s: string)
    ensures Join(Split(s), "\n") == s
    decreases |s|
  {
    if s != [] {
      var rest := Split(s[1..]);
      JoinSplit(s[1..]);
      assert s == [s[0]] + s[1..];
      if s[0] == '\n' {
        JoinCons("", rest, "\n");
      } else if |rest| == 1 {
        assert Split(s) == [[s[0]] + rest[0]];
      } else {
        JoinExtendHead([s[0]], rest, "\n");
      }
    }
  }

  /** A string without newlines splits into itself. */
  lemma {:induction false} SplitSingle(a: string)
    requires '\n' !in a
    ensures Split(a) == [a]
    decreases |a|
  {
    if a != [] {
      SplitSingle(a[1..]);
      assert [a[0]] + a[1..] == a;
    }
  }

  /** Splitting at the first newline. */
  lemma {:induction false} SplitAt(a: string, b: string)
    requires '\n' !in a
    ensures Split(a + "\n" + b) == [a] + Split(b)
    decreases |a|
  {
    var s := a + "\n" + b;
    if a == [] {
      assert s[0] == '\n' && s[1..] == b;
    } else {
      assert s[0] == a[0] && s[1..] == a[1..] + "\n" + b;
      SplitAt(a[1..], b);
      assert [a[0]] + a[1..] == a;
    }
  }

  /** Splitting newline-free lines joined with "\n" gives back the lines. */
  lemma {:induction false} SplitJoin(lines: seq<string>)
    requires |lines| >= 1
    requires NoNewlines(lines)
    ensures Split(Join(lines, "\n")) == lines
    decreases |lines|
  {
    if |lines| == 1 {
      SplitSingle(lines[0]);
    } else {
      SplitJoin(lines[1..]);
      SplitAt(lines[0], Join(lines[1..], "\n"));
      assert lines == [lines[0]] + lines[1..];
    }
  }
}
