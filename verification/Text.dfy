/** The string operations of Go's `strings` package the query scanners use. A `char` stands for a
    byte here. */
module Text {

  /** `strings.IndexByte`. */
  function IndexByte(s: string, c: char): (i: int)
    ensures -1 <= i < |s|
    ensures i >= 0 ==> s[i] == c
    ensures forall k :: 0 <= k < (if i < 0 then |s| else i) ==> s[k] != c
  {
    if s == "" then -1
    else if s[0] == c then 0
    else
      var j := IndexByte(s[1..], c);
      assert forall k :: 1 <= k < |s| ==> s[k] == s[1..][k - 1];
      if j < 0 then -1 else j + 1
  }

  lemma FirstIndex(s: string, c: char, i: int)
    requires 0 <= i < |s| && s[i] == c && forall k :: 0 <= k < i ==> s[k] != c
    ensures IndexByte(s, c) == i
  {
  }

  lemma NoIndex(s: string, c: char)
    ensures IndexByte(s, c) < 0 <==> c !in s
  {
  }

  /** `strings.Index`. */
  function Index(s: string, sub: string): (i: int)
    ensures -1 <= i <= |s|
    ensures i >= 0 ==> sub <= s[i..] && forall k :: 0 <= k < i ==> !(sub <= s[k..])
    ensures i < 0 ==> forall k :: 0 <= k <= |s| ==> !(sub <= s[k..])
  {
    if sub <= s then assert s[0..] == s; 0
    else if s == "" then -1
    else
      var j := Index(s[1..], sub);
      assert s[0..] == s;
      assert forall k :: 1 <= k <= |s| ==> s[k..] == s[1..][k - 1..];
      if j < 0 then -1 else j + 1
  }

  /** `strings.Split` on a one-byte separator. */
  function Split(s: string, sep: char): (segs: seq<string>)
    ensures |segs| > 0
    decreases |s|
  {
    var i := IndexByte(s, sep);
    if i < 0 then [s] else [s[..i]] + Split(s[i + 1..], sep)
  }

  function Join(segs: seq<string>, sep: char): string {
    if segs == [] then "" else if |segs| == 1 then segs[0] else segs[0] + [sep] + Join(segs[1..], sep)
  }

  lemma JoinStep(head: string, tail: seq<string>, sep: char)
    requires tail != []
    ensures Join([head] + tail, sep) == head + [sep] + Join(tail, sep)
  {
    assert ([head] + tail)[1..] == tail;
  }

  lemma CutAt(s: string, i: nat)
    requires i < |s|
    ensures s == s[..i] + [s[i]] + s[i + 1..]
  {
  }

  lemma NotInHead(s: string, c: char)
    requires IndexByte(s, c) >= 0
    ensures c !in s[..IndexByte(s, c)]
  {
  }

  /** The pieces of a split, joined with the separator, are the string again. */
  lemma {:induction false} SplitJoins(s: string, sep: char)
    ensures Join(Split(s, sep), sep) == s
    decreases |s|
  {
    var i := IndexByte(s, sep);
    if i >= 0 {
      SplitJoins(s[i + 1..], sep);
      JoinStep(s[..i], Split(s[i + 1..], sep), sep);
      CutAt(s, i);
    }
  }

  /** And none of them has a separator in it. */
  lemma {:induction false} SplitSeparates(s: string, sep: char)
    ensures forall seg <- Split(s, sep) :: sep !in seg
    decreases |s|
  {
    var i := IndexByte(s, sep);
    NoIndex(s, sep);
    if i >= 0 {
      SplitSeparates(s[i + 1..], sep);
      NotInHead(s, sep);
    }
  }

  /** `strings.TrimFunc`. */
  function Trim(s: string, drop: char -> bool): string
    decreases |s|
  {
    if s != "" && drop(s[0]) then Trim(s[1..], drop)
    else if s != "" && drop(s[|s| - 1]) then Trim(s[..|s| - 1], drop)
    else s
  }

  predicate Only(s: string, drop: char -> bool) {
    forall i :: 0 <= i < |s| ==> drop(s[i])
  }

  lemma TrimmedFirst(c: char, before: string, t: string, after: string)
    ensures [c] + (before + t + after) == ([c] + before) + t + after
  {
  }

  lemma TrimmedLast(before: string, t: string, after: string, c: char)
    ensures (before + t + after) + [c] == before + t + (after + [c])
  {
  }

  /** Trimming takes what is to be dropped off both ends, all of it and nothing else. */
  lemma {:induction false} TrimTrims(s: string, drop: char -> bool) returns (before: string, after: string)
    ensures s == before + Trim(s, drop) + after && Only(before, drop) && Only(after, drop)
    ensures var t := Trim(s, drop); t != "" ==> !drop(t[0]) && !drop(t[|t| - 1])
    decreases |s|
  {
    if s != "" && drop(s[0]) {
      var b, a := TrimTrims(s[1..], drop);
      before, after := [s[0]] + b, a;
      CutAt(s, 0);
      TrimmedFirst(s[0], b, Trim(s, drop), a);
    } else if s != "" && drop(s[|s| - 1]) {
      var b, a := TrimTrims(s[..|s| - 1], drop);
      before, after := b, a + [s[|s| - 1]];
      CutAt(s, |s| - 1);
      TrimmedLast(b, Trim(s, drop), a, s[|s| - 1]);
    } else {
      before, after := "", "";
    }
  }

  /** `strings.ReplaceAll` for a non-empty pattern: leftmost occurrences, not overlapping. */
  function ReplaceAll(s: string, pattern: string, replacement: string): string
    requires pattern != ""
    decreases |s|
  {
    if s == "" then ""
    else if pattern <= s then replacement + ReplaceAll(s[|pattern|..], pattern, replacement)
    else [s[0]] + ReplaceAll(s[1..], pattern, replacement)
  }

  function Lower(c: char): char {
    if 'A' <= c <= 'Z' then (c as int + 32) as char else c
  }

  /** The UTF-8 bytes of the two characters outside ASCII that fold to an ASCII letter: the long s
      (U+017F) and the Kelvin sign (U+212A). */
  const LONG_S := "\U{00C5}\U{00BF}"
  const KELVIN := "\U{00E2}\U{0084}\U{00AA}"

  /** Simple case folding of the bytes of a string, as far as ASCII letters are its result. */
  function Folded(s: string): string
    decreases |s|
  {
    if s == "" then ""
    else if LONG_S <= s then "s" + Folded(s[2..])
    else if KELVIN <= s then "k" + Folded(s[3..])
    else [Lower(s[0])] + Folded(s[1..])
  }

  /** `strings.EqualFold`; exact when `b` is ASCII, as every name the proxy compares with is. */
  predicate EqualFold(a: string, b: string) {
    Folded(a) == Folded(b)
  }

  /** As the standard library has it: these two, and the ASCII letters they fold to, in either case. */
  lemma LettersBeyondAscii()
    ensures EqualFold("\U{00C5}\U{00BF}", "s") && EqualFold("\U{00C5}\U{00BF}", "S")
    ensures EqualFold("\U{00E2}\U{0084}\U{00AA}", "k") && EqualFold("\U{00E2}\U{0084}\U{00AA}", "K")
  {
    assert LONG_S[2..] == "" && KELVIN[3..] == "";
    assert "s"[1..] == "" && "S"[1..] == "" && "k"[1..] == "" && "K"[1..] == "";
    assert KELVIN[0] != LONG_S[0] && Folded(KELVIN) == "k" + Folded(KELVIN[3..]);
    assert Folded("s") == "s" == Folded("S") && Folded("k") == "k" == Folded("K");
  }

  predicate Ascii(s: string) {
    forall c <- s :: c < '\U{0080}'
  }

  lemma {:induction false} FoldedAscii(s: string)
    requires Ascii(s)
    ensures |Folded(s)| == |s| && forall i :: 0 <= i < |s| ==> Folded(s)[i] == Lower(s[i])
    decreases |s|
  {
    if s != "" {
      assert s[0] in s && forall c <- s[1..] :: c in s;
      FoldedAscii(s[1..]);
      assert Folded(s) == [Lower(s[0])] + Folded(s[1..]);
    }
  }

  /** A letter and the same letter in the other case. */
  predicate SameLetter(a: char, b: char) {
    a == b || ('A' <= a <= 'Z' && b as int == a as int + 32) || ('A' <= b <= 'Z' && a as int == b as int + 32)
  }

  lemma SameLetterFolds(a: char, b: char)
    requires a < '\U{0080}' && b < '\U{0080}'
    ensures Lower(a) == Lower(b) <==> SameLetter(a, b)
  {
  }

  /** ASCII strings are equal under folding when they differ at most in the case of letters. */
  lemma EqualFoldAscii(a: string, b: string)
    requires Ascii(a) && Ascii(b)
    ensures EqualFold(a, b) <==> |a| == |b| && forall i :: 0 <= i < |a| ==> SameLetter(a[i], b[i])
  {
    FoldedAscii(a);
    FoldedAscii(b);
    if |a| == |b| {
      forall i | 0 <= i < |a|
        ensures Folded(a)[i] == Folded(b)[i] <==> SameLetter(a[i], b[i])
      {
        assert a[i] in a && b[i] in b;
        SameLetterFolds(a[i], b[i]);
      }
    }
  }
}
