/** Python's string splitting and stripping, and how each undoes the writing it is used on. */
module Text {
  import opened Sequences

  /** What `str.isspace` holds of. */
  predicate IsSpace(c: char) {
    var n := c as int;
    || 0x9 <= n <= 0xD || 0x1C <= n <= 0x20 || n == 0x85 || n == 0xA0 || n == 0x1680
    || 0x2000 <= n <= 0x200A || n == 0x2028 || n == 0x2029 || n == 0x202F || n == 0x205F || n == 0x3000
  }

  /** No character of `s` is a space. */
  predicate Solid(s: string) {
    forall i :: 0 <= i < |s| ==> !IsSpace(s[i])
  }

  /** `s.split(c)`: the pieces between the separators, empty ones included. */
  function SplitOn(s: string, c: char): (parts: seq<string>)
    ensures parts != []
  {
    if s == "" then [""]
    else
      var later := SplitOn(s[1..], c);
      if s[0] == c then [""] + later else [[s[0]] + later[0]] + later[1..]
  }

  lemma {:induction false} SplitWhole(x: string, c: char)
    requires c !in x
    ensures SplitOn(x, c) == [x]
  {
    if x != "" {
      SplitWhole(x[1..], c);
      assert [x[0]] + x[1..] == x;
    }
  }

  lemma {:induction false} SplitFirst(x: string, c: char, rest: string)
    requires c !in x
    ensures SplitOn(x + [c] + rest, c) == [x] + SplitOn(rest, c)
  {
    var s := x + [c] + rest;
    if x == "" {
      assert s[1..] == rest;
    } else {
      assert s[1..] == x[1..] + [c] + rest;
      SplitFirst(x[1..], c, rest);
      assert [x[0]] + x[1..] == x && s[0] == x[0];
    }
  }

  /** How many leading characters are not spaces. */
  function WordLength(s: string): (n: nat)
    ensures n <= |s|
  {
    if s == "" || IsSpace(s[0]) then 0 else 1 + WordLength(s[1..])
  }

  /** `s.split()`: the maximal runs of characters that are not spaces. */
  function Words(s: string): seq<string> {
    if s == "" then []
    else if IsSpace(s[0]) then Words(s[1..])
    else [s[..WordLength(s)]] + Words(s[WordLength(s)..])
  }

  lemma {:induction false} WordLengthOf(w: string, rest: string)
    requires Solid(w) && (rest == "" || IsSpace(rest[0]))
    ensures WordLength(w + rest) == |w|
  {
    if w != "" {
      assert (w + rest)[1..] == w[1..] + rest;
      WordLengthOf(w[1..], rest);
    } else {
      assert w + rest == rest;
    }
  }

  lemma WordsFirst(w: string, rest: string)
    requires Solid(w) && w != ""
    ensures Words(w + " " + rest) == [w] + Words(rest)
  {
    var s := w + (" " + rest);
    assert s == w + " " + rest;
    WordLengthOf(w, " " + rest);
    assert s[..|w|] == w && s[|w|..] == " " + rest && (" " + rest)[1..] == rest;
  }

  /** The words with one space between neighbours. */
  function JoinWords(words: seq<string>): string {
    if words == [] then "" else if |words| == 1 then words[0] else words[0] + " " + JoinWords(words[1..])
  }

  predicate AllWords(words: seq<string>) {
    forall i :: 0 <= i < |words| ==> Solid(words[i]) && words[i] != ""
  }

  lemma {:induction false} WordsOfJoined(words: seq<string>)
    requires AllWords(words)
    ensures Words(JoinWords(words)) == words
  {
    if |words| == 1 {
      WordLengthOf(words[0], "");
      assert words[0] + "" == words[0] && words[0][|words[0]|..] == "";
    } else if words != [] {
      WordsFirst(words[0], JoinWords(words[1..]));
      WordsOfJoined(words[1..]);
    }
  }

  lemma {:induction false} WordIsSolid(s: string)
    ensures Solid(s[..WordLength(s)])
  {
    if s != "" && !IsSpace(s[0]) {
      WordIsSolid(s[1..]);
      forall i | 0 <= i < WordLength(s) ensures !IsSpace(s[i]) {
        if i > 0 {
          assert s[1..][..WordLength(s[1..])][i - 1] == s[i];
        }
      }
    }
  }

  /** Splitting gives words: not empty, and without spaces. */
  lemma {:induction false} WordsAreWords(s: string)
    ensures AllWords(Words(s))
    decreases |s|
  {
    if s != "" {
      if IsSpace(s[0]) {
        WordsAreWords(s[1..]);
      } else {
        WordIsSolid(s);
        WordsAreWords(s[WordLength(s)..]);
      }
    }
  }

  lemma {:induction false} JoinedAvoids(words: seq<string>, c: char)
    requires c != ' ' && forall i :: 0 <= i < |words| ==> c !in words[i]
    ensures c !in JoinWords(words)
  {
    if |words| > 1 {
      JoinedAvoids(words[1..], c);
    }
  }

  // --- stripping ---

  function StripLeft(s: string): string {
    if s != "" && IsSpace(s[0]) then StripLeft(s[1..]) else s
  }

  function StripRight(s: string): string {
    if s != "" && IsSpace(s[|s| - 1]) then StripRight(s[..|s| - 1]) else s
  }

  function Strip(s: string): string {
    StripRight(StripLeft(s))
  }

  /** Neither end of `s` is a space. */
  predicate Trimmed(s: string) {
    s != "" ==> !IsSpace(s[0]) && !IsSpace(s[|s| - 1])
  }

  lemma StripFixes(s: string)
    requires Trimmed(s)
    ensures Strip(s) == s
  {
  }

  /** Every character of `part` is one of `whole`. */
  predicate DrawnFrom(part: string, whole: string) {
    forall i :: 0 <= i < |part| ==> part[i] in whole
  }

  lemma {:induction false} StripLeftStarts(s: string)
    ensures StripLeft(s) != "" ==> !IsSpace(StripLeft(s)[0])
    ensures DrawnFrom(StripLeft(s), s)
  {
    if s != "" && IsSpace(s[0]) {
      StripLeftStarts(s[1..]);
    }
  }

  lemma {:induction false} StripRightEnds(s: string)
    ensures StripRight(s) <= s && (StripRight(s) != "" ==> !IsSpace(StripRight(s)[|StripRight(s)| - 1]))
  {
    if s != "" && IsSpace(s[|s| - 1]) {
      StripRightEnds(s[..|s| - 1]);
    }
  }

  lemma StripTrims(s: string)
    ensures Trimmed(Strip(s)) && DrawnFrom(Strip(s), s)
  {
    StripLeftStarts(s);
    StripRightEnds(StripLeft(s));
  }

  /** Where the first `c` of `s` stands, or the end. */
  function Find(s: string, c: char): (n: nat)
    ensures n <= |s| && c !in s[..n] && (n < |s| ==> s[n] == c) && (n < |s| <==> c in s)
  {
    if s == "" || s[0] == c then 0 else 1 + Find(s[1..], c)
  }

  /** `s.partition(c)` for a `c` that occurs, without the separator. */
  function Partition(s: string, c: char): (string, string)
    requires c in s
  {
    (s[..Find(s, c)], s[Find(s, c) + 1..])
  }

  lemma {:induction false} FindFirst(a: string, c: char, b: string)
    requires c !in a
    ensures Find(a + [c] + b, c) == |a|
  {
    if a != "" {
      assert (a + [c] + b)[1..] == a[1..] + [c] + b;
      FindFirst(a[1..], c, b);
    }
  }

  lemma PartitionOf(a: string, c: char, b: string)
    requires c !in a
    ensures c in a + [c] + b && Partition(a + [c] + b, c) == (a, b)
  {
    var s := a + [c] + b;
    assert s[|a|] == c;
    FindFirst(a, c, b);
    assert s[..|a|] == a && s[|a| + 1..] == b;
  }

  /** `c.join(parts)` */
  function JoinOn(parts: seq<string>, c: char): string {
    if parts == [] then "" else if |parts| == 1 then parts[0] else parts[0] + [c] + JoinOn(parts[1..], c)
  }

  lemma {:induction false} SplitOfJoined(parts: seq<string>, c: char)
    requires forall i :: 0 <= i < |parts| ==> c !in parts[i]
    ensures SplitOn(JoinOn(parts, c), c) == if parts == [] then [""] else parts
  {
    if |parts| == 1 {
      SplitWhole(parts[0], c);
    } else if parts != [] {
      SplitOfJoined(parts[1..], c);
      SplitFirst(parts[0], c, JoinOn(parts[1..], c));
      HeadAndTail(parts);
    }
  }

  lemma {:induction false} SplitAvoids(s: string, c: char, i: nat)
    requires i < |SplitOn(s, c)|
    ensures c !in SplitOn(s, c)[i]
  {
    if s != "" {
      if s[0] == c {
        if i > 0 {
          SplitAvoids(s[1..], c, i - 1);
        }
      } else {
        SplitAvoids(s[1..], c, i);
      }
    }
  }
}
