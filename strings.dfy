/**
 * Bytes and the few functions of Go's `strings` and `bytes` packages that the
 * parsers use. A Go string and a Go byte slice are both modelled as a sequence
 * of bytes; a byte is a character below 256, so that ASCII literals can be
 * written as Dafny strings.
 */
module Strings {
  import opened Wrappers

  type byte = c: char | c as int < 256

  const Space: byte := ' '
  const Newline: seq<byte> := "\n"

  /** `bytes.HasPrefix` / `strings.HasPrefix`. */
  predicate HasPrefix(s: seq<byte>, prefix: seq<byte>) {
    |prefix| <= |s| && s[..|prefix|] == prefix
  }

  /** True when `s` ends with `suffix`. */
  predicate HasSuffix(s: seq<byte>, suffix: seq<byte>) {
    |suffix| <= |s| && s[|s| - |suffix|..] == suffix
  }

  lemma ConcatAssoc(a: seq<byte>, b: seq<byte>, c: seq<byte>)
    ensures (a + b) + c == a + (b + c)
  {
  }

  /** `strings.TrimPrefix`: `s` without `prefix` if it starts with it, else `s`. */
  function TrimPrefix(s: seq<byte>, prefix: seq<byte>): (r: seq<byte>)
    ensures HasPrefix(s, prefix) ==> prefix + r == s
    ensures !HasPrefix(s, prefix) ==> r == s
  {
    if HasPrefix(s, prefix) then
      assert s == s[..|prefix|] + s[|prefix|..];
      s[|prefix|..]
    else s
  }

  /** `strings.TrimSuffix`: `s` without `suffix` if it ends with it, else `s`. */
  function TrimSuffix(s: seq<byte>, suffix: seq<byte>): (r: seq<byte>)
    ensures HasSuffix(s, suffix) ==> r + suffix == s
    ensures !HasSuffix(s, suffix) ==> r == s
  {
    if HasSuffix(s, suffix) then
      assert s == s[..|s| - |suffix|] + s[|s| - |suffix|..];
      s[..|s| - |suffix|]
    else s
  }

  /** The index of the first occurrence of `b` in `s`, if any. */
  function IndexOf(s: seq<byte>, b: byte): (r: Option<nat>)
    ensures r.Some? ==> r.value < |s| && s[r.value] == b && b !in s[..r.value]
    ensures r.None? ==> b !in s
  {
    if |s| == 0 then None
    else if s[0] == b then Some(0)
    else
      match IndexOf(s[1..], b)
      case None => None
      case Some(i) =>
        assert s[..i + 1] == [s[0]] + s[1..][..i];
        Some(i + 1)
  }

  /** The pieces of a split joined back with the separator between them. */
  function Join(parts: seq<seq<byte>>, sep: byte): seq<byte> {
    if |parts| == 0 then []
    else if |parts| == 1 then parts[0]
    else parts[0] + [sep] + Join(parts[1..], sep)
  }

  /**
   * `strings.SplitN(s, sep, n)` for n >= 1 and a one-byte separator: at most
   * `n` pieces, the last one the unsplit remainder. The contract determines
   * the result: the pieces join back to `s`, no piece but the last holds the
   * separator, and the last holds none either when fewer than `n` came out.
   */
  function SplitN(s: seq<byte>, sep: byte, n: nat): (r: seq<seq<byte>>)
    requires n >= 1
    ensures 1 <= |r| <= n
    ensures Join(r, sep) == s
    ensures forall i :: 0 <= i < |r| - 1 ==> sep !in r[i]
    ensures |r| < n ==> sep !in r[|r| - 1]
    ensures n >= 2 && sep in s ==> |r| >= 2
    decreases n
  {
    if n == 1 then [s]
    else
      match IndexOf(s, sep)
      case None => [s]
      case Some(i) =>
        var rest := SplitN(s[i + 1..], sep, n - 1);
        assert s == s[..i] + [sep] + s[i + 1..];
        [s[..i]] + rest
  }

  /** Trimming the newline a line was written with gives the line back. */
  lemma TrimNewline(s: seq<byte>)
    ensures TrimSuffix(s + Newline, Newline) == s
  {
    assert (s + Newline)[|s|..] == Newline;
  }

  /** Trimming a trailing newline keeps a prefix that does not end in a newline. */
  lemma TrimNewlineKeepsPrefix(s: seq<byte>, prefix: seq<byte>)
    requires HasPrefix(s, prefix) && |prefix| > 0 && prefix[|prefix| - 1] != '\n'
    ensures HasPrefix(TrimSuffix(s, Newline), prefix)
  {
    if HasSuffix(s, Newline) {
      assert s[|s| - 1] == '\n';
      assert s[|prefix| - 1] == prefix[|prefix| - 1];
      assert TrimSuffix(s, Newline)[..|prefix|] == s[..|prefix|];
    }
  }

  /**
   * When `s` starts with a separator-free word followed by the separator,
   * SplitN cuts exactly there: the first piece is the word.
   */
  lemma SplitNAfterWord(s: seq<byte>, word: seq<byte>, sep: byte, n: nat)
    requires n >= 2 && sep !in word && HasPrefix(s, word + [sep])
    ensures SplitN(s, sep, n) == [word] + SplitN(s[|word| + 1..], sep, n - 1)
  {
    assert s[|word|] == (word + [sep])[|word|] == sep;
    assert s[..|word|] == (word + [sep])[..|word|] == word;
    assert IndexOf(s, sep) == Some(|word|);
  }

  /** A sequence that starts with `a` does not start with a `b` whose first byte differs. */
  lemma PrefixesClash(s: seq<byte>, a: seq<byte>, b: seq<byte>)
    requires HasPrefix(s, a) && |a| > 0 && |b| > 0 && a[0] != b[0]
    ensures !HasPrefix(s, b)
  {
    assert s[0] == s[..|a|][0];
  }

  /**
   * A line that starts with a separator-free word and a space keeps that
   * start when its newline is trimmed, and splits in two right after the word.
   */
  lemma WordLineSplit(line: seq<byte>, word: seq<byte>)
    requires Space !in word && HasPrefix(line, word + [Space])
    ensures var s := TrimSuffix(line, Newline);
            HasPrefix(s, word + [Space]) && SplitN(s, Space, 2) == [word, s[|word| + 1..]]
  {
    TrimNewlineKeepsPrefix(line, word + [Space]);
    SplitNAfterWord(TrimSuffix(line, Newline), word, Space, 2);
  }

  /** The first separator after a separator-free word is the one right after it. */
  lemma IndexOfAfterWord(w: seq<byte>, b: byte, rest: seq<byte>)
    requires b !in w
    ensures IndexOf(w + [b] + rest, b) == Some(|w|)
  {
    var t := w + [b] + rest;
    assert t[|w|] == b;
    assert t[..|w|] == w;
  }

  /**
   * Writing a newline back after the trimmed rest of a line gives the line
   * again exactly when the line ended in a newline (the prefix must not end
   * in one itself).
   */
  lemma RestoreNewline(line: seq<byte>, prefix: seq<byte>)
    requires HasPrefix(line, prefix) && (prefix == [] || prefix[|prefix| - 1] != '\n')
    ensures prefix + TrimSuffix(line[|prefix|..], Newline) + Newline == line <==> HasSuffix(line, Newline)
  {
    var r := line[|prefix|..];
    assert line == prefix + r;
    var x := TrimSuffix(r, Newline);
    if HasSuffix(line, Newline) {
      assert line[|line| - 1] == '\n';
      assert |r| > 0 by {
        if prefix != [] { assert line[|prefix| - 1] == prefix[|prefix| - 1]; }
      }
      assert r[|r| - 1..] == line[|line| - 1..];
      assert prefix + x + Newline == prefix + (x + Newline);
    }
    if prefix + x + Newline == line {
      assert line[|line| - 1..] == Newline;
    }
  }
}
