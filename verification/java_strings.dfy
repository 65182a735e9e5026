/** The few `java.lang.String` operations the client relies on, with Java's conventions
    (`-1` for "not found"). A Dafny `char` stands for one Java `char`. */
module JavaStrings {

  predicate StartsWith(s: string, prefix: string) {
    |prefix| <= |s| && s[..|prefix|] == prefix
  }

  predicate EndsWith(s: string, suffix: string) {
    |suffix| <= |s| && s[|s| - |suffix|..] == suffix
  }

  /** `s.contains(part)`: some suffix of `s` starts with `part`. */
  predicate Contains(s: string, part: string)
    decreases |s|
  {
    StartsWith(s, part) || (|s| > 0 && Contains(s[1..], part))
  }

  /** `s.indexOf(c)`: the first position of `c`, or -1. */
  function IndexOf(s: string, c: char): (r: int)
    ensures -1 <= r < |s|
    ensures r == -1 <==> c !in s
    ensures r >= 0 ==> s[r] == c && c !in s[..r]
    decreases |s|
  {
    if |s| == 0 then -1
    else if s[0] == c then 0
    else
      var k := IndexOf(s[1..], c);
      assert s[1..][..if k < 0 then 0 else k] == s[1..if k < 0 then 1 else k + 1];
      if k < 0 then -1 else k + 1
  }

  /** `s.lastIndexOf(c)`: the last position of `c`, or -1. */
  function LastIndexOf(s: string, c: char): (r: int)
    ensures -1 <= r < |s|
    ensures r == -1 <==> c !in s
    ensures r >= 0 ==> s[r] == c && c !in s[r + 1..]
    decreases |s|
  {
    if |s| == 0 then -1
    else
      var k := LastIndexOf(s[1..], c);
      if k >= 0 then
        assert s[k + 1] == s[1..][k];
        assert s[k + 2..] == s[1..][k + 1..];
        assert c in s by { assert s[k + 1] in s; }
        k + 1
      else if s[0] == c then
        assert s[1..] == s[0 + 1..];
        0
      else
        assert s == [s[0]] + s[1..];
        -1
  }

  /** An occurrence of `c` with no `c` after it is the one `LastIndexOf` finds. */
  lemma {:induction false} LastIndexOfIsLast(s: string, c: char, i: nat)
    requires i < |s| && s[i] == c && c !in s[i + 1..]
    ensures LastIndexOf(s, c) == i
    decreases i
  {
    if i > 0 {
      assert s[1..][i..] == s[i + 1..];
      LastIndexOfIsLast(s[1..], c, i - 1);
    }
  }

  /** Behind a separator the suffix test sees only what follows it, for a suffix without
      that separator. */
  lemma EndsWithAfterSeparator(head: string, sep: char, tail: string, suffix: string)
    requires sep !in suffix
    ensures EndsWith(head + [sep] + tail, suffix) <==> EndsWith(tail, suffix)
  {
    var s := head + [sep] + tail;
    if |suffix| <= |tail| {
      assert s[|s| - |suffix|..] == tail[|tail| - |suffix|..];
    } else if |suffix| <= |s| {
      assert s[|s| - |suffix|..][|suffix| - |tail| - 1] == sep;
    }
  }

  /** A string that contains `part` at position `i` contains it. */
  lemma {:induction false} ContainsAt(s: string, part: string, i: nat)
    requires i + |part| <= |s| && s[i..i + |part|] == part
    ensures Contains(s, part)
    decreases i
  {
    if i == 0 {
      assert s[..|part|] == s[0..|part|];
    } else {
      assert s[1..][i - 1..i - 1 + |part|] == s[i..i + |part|];
      ContainsAt(s[1..], part, i - 1);
    }
  }

  /** Conversely, a string that contains `part` has it at some position. */
  lemma {:induction false} ContainsWitness(s: string, part: string) returns (i: nat)
    requires Contains(s, part)
    ensures i + |part| <= |s| && s[i..i + |part|] == part
    decreases |s|
  {
    if StartsWith(s, part) {
      i := 0;
    } else {
      var j := ContainsWitness(s[1..], part);
      assert s[1..][j..j + |part|] == s[j + 1..j + 1 + |part|];
      i := j + 1;
    }
  }
}
