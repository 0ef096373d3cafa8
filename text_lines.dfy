/**
 * Splitting a text into lines on the newline character and joining lines
 * back together, as Kotlin's `String.split("\n")` and
 * `joinToString("\n")` do. `split` keeps empty parts, including a leading
 * and a trailing one, and never returns an empty list (`""` splits into
 * `[""]`). Only '\n' separates; a '\r' stays inside the part it is in.
 */
module TextLines {

  const Newline: char := '\n'

  /** The number of newline characters in `s`. */
  function NewlineCount(s: string): nat
  {
    if s == [] then 0
    else (if s[0] == Newline then 1 else 0) + NewlineCount(s[1..])
  }

  /** True when no part of `parts` contains a newline character. */
  predicate NoNewlines(parts: seq<string>)
  {
    forall i :: 0 <= i < |parts| ==> Newline !in parts[i]
  }

  /** `s.split("\n")`: the maximal newline-free pieces of `s`, in order. */
  function Split(s: string): (parts: seq<string>)
    ensures |parts| == NewlineCount(s) + 1
    ensures NoNewlines(parts)
  {
    if s == [] then [""]
    else
      var rest := Split(s[1..]);
      if s[0] == Newline then [""] + rest
      else [[s[0]] + rest[0]] + rest[1..]
  }

  /** `parts.joinToString("\n")`. */
  function Join(parts: seq<string>): string
  {
    if |parts| == 0 then ""
    else if |parts| == 1 then parts[0]
    else parts[0] + [Newline] + Join(parts[1..])
  }

  lemma {:induction false} NewlineCountAppend(a: string, b: string)
    ensures NewlineCount(a + b) == NewlineCount(a) + NewlineCount(b)
  {
    if a == [] {
      assert a + b == b;
    } else {
      assert (a + b)[0] == a[0] && (a + b)[1..] == a[1..] + b;
      NewlineCountAppend(a[1..], b);
    }
  }

  lemma {:induction false} NewlineCountNone(s: string)
    ensures NewlineCount(s) == 0 <==> Newline !in s
  {
    if s != [] {
      NewlineCountNone(s[1..]);
      assert s == [s[0]] + s[1..];
    }
  }

  /** Splitting loses nothing: joining the parts gives back the text. */
  lemma {:induction false} JoinSplit(s: string)
    ensures Join(Split(s)) == s
  {
    if s != [] {
      var rest := Split(s[1..]);
      JoinSplit(s[1..]);
      if s[0] == Newline {
        assert ([""] + rest)[1..] == rest;
      } else if |rest| == 1 {
        assert s == [s[0]] + s[1..];
      } else {
        assert ([[s[0]] + rest[0]] + rest[1..])[1..] == rest[1..];
        assert Join(rest) == rest[0] + [Newline] + Join(rest[1..]);
      }
    }
  }

  /** A newline-free piece in front of a newline becomes one part. */
  lemma {:induction false} SplitCons(p: string, t: string)
    requires Newline !in p
    ensures Split(p + [Newline] + t) == [p] + Split(t)
  {
    if p == [] {
      assert p + [Newline] + t == [Newline] + t;
      assert ([Newline] + t)[1..] == t;
    } else {
      assert (p + [Newline] + t)[1..] == p[1..] + [Newline] + t;
      SplitCons(p[1..], t);
      assert [p[0]] + p[1..] == p;
    }
  }

  /** A newline-free text is a single part. */
  lemma {:induction false} SplitSingle(p: string)
    requires Newline !in p
    ensures Split(p) == [p]
  {
    if p != [] {
      SplitSingle(p[1..]);
      assert [p[0]] + p[1..] == p;
    }
  }

  /**
   * Split is the inverse of Join on lists of newline-free parts, so the
   * parts Split returns are the only such list that joins back to the text.
   */
  lemma {:induction false} SplitJoin(parts: seq<string>)
    requires |parts| >= 1 && NoNewlines(parts)
    ensures Split(Join(parts)) == parts
  {
    if |parts| == 1 {
      SplitSingle(parts[0]);
    } else {
      assert NoNewlines(parts[1..]) by {
        forall i | 0 <= i < |parts| - 1 ensures Newline !in parts[1..][i] {
          assert parts[1..][i] == parts[i + 1];
        }
      }
      SplitJoin(parts[1..]);
      SplitCons(parts[0], Join(parts[1..]));
      assert [parts[0]] + parts[1..] == parts;
    }
  }

  /** Joining two or more parts puts a newline after all but the last one. */
  lemma {:induction false} JoinLast(parts: seq<string>)
    requires |parts| >= 2
    ensures Join(parts) == Join(parts[..|parts| - 1]) + [Newline] + parts[|parts| - 1]
  {
    if |parts| > 2 {
      var tail := parts[1..];
      JoinLast(tail);
      assert tail[..|tail| - 1] == parts[..|parts| - 1][1..];
      assert tail[|tail| - 1] == parts[|parts| - 1];
    }
  }

  /** The newlines of a join are its separators plus those inside the parts. */
  lemma {:induction false} JoinNewlineCount(parts: seq<string>)
    requires |parts| >= 1 && NoNewlines(parts)
    ensures NewlineCount(Join(parts)) == |parts| - 1
  {
    NewlineCountNone(parts[0]);
    if |parts| > 1 {
      assert NoNewlines(parts[1..]) by {
        forall i | 0 <= i < |parts| - 1 ensures Newline !in parts[1..][i] {
          assert parts[1..][i] == parts[i + 1];
        }
      }
      JoinNewlineCount(parts[1..]);
      NewlineCountAppend(parts[0] + [Newline], Join(parts[1..]));
      NewlineCountAppend(parts[0], [Newline]);
    }
  }
}
