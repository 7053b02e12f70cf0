/** The two string operations of ECMAScript that the display resolver relies on:
    `String.prototype.split` with a one-character separator and
    `Array.prototype.join` over strings. */
module JsStrings {

  /** Number of occurrences of `c` in `s`. */
  function Count(s: string, c: char): (n: nat)
    ensures n <= |s|
    ensures n == 0 <==> c !in s
  {
    if |s| == 0 then 0 else (if s[0] == c then 1 else 0) + Count(s[1..], c)
  }

  /** `parts[0] + sep + parts[1] + ... + sep + parts[|parts| - 1]`; the empty list
      joins to the empty string. */
  function Join(parts: seq<string>, sep: string): string
  {
    if |parts| == 0 then ""
    else if |parts| == 1 then parts[0]
    else parts[0] + sep + Join(parts[1..], sep)
  }

  /** `s.split(sep)` for a one-character separator: the maximal separator-free
      pieces of `s`, in order, empty pieces included (so "" splits to [""] and
      "a,,b" to ["a", "", "b"]). Nothing is trimmed or filtered. */
  function Split(s: string, sep: char): (parts: seq<string>)
    ensures |parts| == Count(s, sep) + 1
    ensures forall i :: 0 <= i < |parts| ==> sep !in parts[i]
    ensures Join(parts, [sep]) == s
    decreases |s|
  {
    if |s| == 0 then [""]
    else
      var rest := Split(s[1..], sep);
      if s[0] == sep then [""] + rest
      else [[s[0]] + rest[0]] + rest[1..]
  }

  /** A separator-free prefix followed by the separator splits off as one piece. */
  lemma {:induction false} SplitAfterPiece(p: string, t: string, sep: char)
    requires sep !in p
    ensures Split(p + [sep] + t, sep) == [p] + Split(t, sep)
    decreases |p|
  {
    var s := p + [sep] + t;
    if |p| == 0 {
      assert s[0] == sep && s[1..] == t;
    } else {
      assert s[0] == p[0] && s[1..] == p[1..] + [sep] + t;
      SplitAfterPiece(p[1..], t, sep);
      assert [p[0]] + p[1..] == p;
    }
  }

  /** A string without the separator is a single piece. */
  lemma {:induction false} SplitWithoutSeparator(p: string, sep: char)
    requires sep !in p
    ensures Split(p, sep) == [p]
    decreases |p|
  {
    if |p| > 0 {
      SplitWithoutSeparator(p[1..], sep);
      assert [p[0]] + p[1..] == p;
    }
  }

  /** Split undoes Join: a non-empty list of separator-free pieces is recovered
      from its joined form (together with Split's own `Join(Split(s)) == s`
      this makes the two inverse to each other). */
  lemma {:induction false} SplitJoin(parts: seq<string>, sep: char)
    requires |parts| >= 1
    requires forall i :: 0 <= i < |parts| ==> sep !in parts[i]
    ensures Split(Join(parts, [sep]), sep) == parts
    decreases |parts|
  {
    if |parts| == 1 {
      SplitWithoutSeparator(parts[0], sep);
    } else {
      var rest := parts[1..];
      assert forall i :: 0 <= i < |rest| ==> sep !in rest[i] by {
        forall i | 0 <= i < |rest| ensures sep !in rest[i] { assert rest[i] == parts[i + 1]; }
      }
      SplitJoin(rest, sep);
      SplitAfterPiece(parts[0], Join(rest, [sep]), sep);
      assert [parts[0]] + rest == parts;
    }
  }

  /** A separator-free prefix up to the end or up to a separator is the first piece. */
  lemma FirstPiece(b: string, tail: string, sep: char)
    requires sep !in b
    requires tail == [] || tail[0] == sep
    ensures Split(b + tail, sep)[0] == b
  {
    if tail == [] {
      assert b + tail == b;
      SplitWithoutSeparator(b, sep);
    } else {
      assert b + tail == b + [sep] + tail[1..];
      SplitAfterPiece(b, tail[1..], sep);
    }
  }

  /** The first two pieces of `a + sep + b + tail`, where `tail` is empty or
      starts with the separator. */
  lemma FirstTwoPieces(a: string, b: string, tail: string, sep: char)
    requires sep !in a && sep !in b
    requires tail == [] || tail[0] == sep
    ensures var parts := Split(a + [sep] + b + tail, sep); |parts| >= 2 && parts[0] == a && parts[1] == b
  {
    var rest := b + tail;
    assert a + [sep] + b + tail == a + [sep] + rest;
    SplitAfterPiece(a, rest, sep);
    FirstPiece(b, tail, sep);
  }
}
