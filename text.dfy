/**
 * String operations of JavaScript and Python that the models rely on:
 * `startsWith`, `includes`/`in`, `indexOf`, `split`, and ASCII lower-casing.
 */
module Text {
  import opened Common

  /** `s.startsWith(prefix)` */
  predicate StartsWith(s: string, prefix: string) {
    prefix <= s
  }

  /** `sub` occurs in `s` starting at index `i`. */
  ghost predicate OccursAt(s: string, sub: string, i: int) {
    0 <= i && i + |sub| <= |s| && s[i..i + |sub|] == sub
  }

  /** `s.indexOf(sub)`: the first index where `sub` occurs, if any. */
  function IndexOf(s: string, sub: string): (r: Option<nat>)
    ensures r.Some? ==> OccursAt(s, sub, r.value)
    ensures r.Some? ==> forall j :: 0 <= j < r.value ==> !OccursAt(s, sub, j)
    ensures r.None? ==> forall j :: !OccursAt(s, sub, j)
    decreases |s|
  {
    if |sub| > |s| then None
    else if s[..|sub|] == sub then Some(0)
    else
      var rest := IndexOf(s[1..], sub);
      assert !OccursAt(s, sub, 0);
      forall j | 1 <= j ensures OccursAt(s, sub, j) <==> OccursAt(s[1..], sub, j - 1) {
        if j + |sub| <= |s| {
          assert s[1..][j - 1..j - 1 + |sub|] == s[j..j + |sub|];
        }
      }
      match rest
      case None => None
      case Some(k) => Some(k + 1)
  }

  /** `s.includes(sub)` in JavaScript, `sub in s` in Python. */
  predicate Contains(s: string, sub: string) {
    IndexOf(s, sub).Some?
  }

  lemma ContainsIff(s: string, sub: string)
    ensures Contains(s, sub) <==> exists i :: OccursAt(s, sub, i)
  {
  }

  /** For a one-character needle, `includes` is membership. */
  lemma ContainsChar(s: string, c: char)
    ensures Contains(s, [c]) <==> c in s
  {
    if c in s {
      var k :| 0 <= k < |s| && s[k] == c;
      assert s[k..k + 1] == [c];
      assert OccursAt(s, [c], k);
    }
    if Contains(s, [c]) {
      var k := IndexOf(s, [c]).value;
      assert s[k..k + 1] == [c];
      assert s[k] == c;
    }
  }

  /** A string contains whatever occurs in a part of it. */
  lemma {:induction false} ContainsConcat(a: string, b: string, sub: string)
    requires Contains(b, sub)
    ensures Contains(a + b, sub) && Contains(b + a, sub)
  {
    var i := IndexOf(b, sub).value;
    assert (a + b)[|a| + i..|a| + i + |sub|] == b[i..i + |sub|];
    assert OccursAt(a + b, sub, |a| + i);
    assert (b + a)[i..i + |sub|] == b[i..i + |sub|];
    assert OccursAt(b + a, sub, i);
  }

  /** `s.split(sep)` for a non-empty separator: the pieces between occurrences. */
  function Split(s: string, sep: string): (parts: seq<string>)
    requires |sep| > 0
    ensures |parts| >= 1
    ensures forall k :: 0 <= k < |parts| ==> !Contains(parts[k], sep)
    decreases |s|
  {
    match IndexOf(s, sep)
    case None => [s]
    case Some(i) =>
      assert !Contains(s[..i], sep) by {
        forall j | OccursAt(s[..i], sep, j) ensures false {
          assert s[..i][j..j + |sep|] == s[j..j + |sep|];
          assert OccursAt(s, sep, j);
        }
      }
      [s[..i]] + Split(s[i + |sep|..], sep)
  }

  /** `parts.join(sep)`, the inverse of `Split`. */
  function Join(parts: seq<string>, sep: string): string {
    if |parts| == 0 then ""
    else if |parts| == 1 then parts[0]
    else parts[0] + sep + Join(parts[1..], sep)
  }

  lemma {:induction false} JoinSplit(s: string, sep: string)
    requires |sep| > 0
    ensures Join(Split(s, sep), sep) == s
    decreases |s|
  {
    var found := IndexOf(s, sep);
    if found.Some? {
      var i := found.value;
      var rest := s[i + |sep|..];
      var tail := Split(rest, sep);
      JoinSplit(rest, sep);
      assert Split(s, sep) == [s[..i]] + tail;
      JoinCons(s[..i], tail, sep);
      assert s == s[..i] + sep + rest;
    }
  }

  lemma JoinCons(head: string, tail: seq<string>, sep: string)
    requires |tail| >= 1
    ensures Join([head] + tail, sep) == head + sep + Join(tail, sep)
  {
    assert ([head] + tail)[1..] == tail;
  }

  /** The first piece of a split is everything before the first separator. */
  lemma SplitHead(s: string, sep: string)
    requires |sep| > 0
    ensures var h := Split(s, sep)[0];
      && h <= s && !Contains(h, sep)
      && (IndexOf(s, sep).None? ==> h == s)
      && (IndexOf(s, sep).Some? ==> IndexOf(s, sep).value == |h|)
      && (|h| == |s| || OccursAt(s, sep, |h|))
  {
  }

  /** The second piece starts right after the first separator and runs to the next one. */
  lemma SplitSecond(s: string, sep: string)
    requires |sep| > 0 && IndexOf(s, sep).Some?
    ensures |Split(s, sep)| >= 2
    ensures Split(s, sep)[1] == Split(s[IndexOf(s, sep).value + |sep|..], sep)[0]
  {
  }

  /** A prefix of a string without `sub` is without `sub` too. */
  lemma NotContainsPrefix(a: string, b: string, sub: string)
    requires a <= b && !Contains(b, sub)
    ensures !Contains(a, sub)
  {
    ContainsIff(b, sub);
    forall i ensures !OccursAt(a, sub, i) {
      if 0 <= i && i + |sub| <= |a| {
        assert a[i..i + |sub|] == b[i..i + |sub|];
        assert !OccursAt(b, sub, i);
      }
    }
    ContainsIff(a, sub);
  }

  /**
   * `sub` occurs at `i`, and no earlier window can match because the
   * character `sub[m]` does not occur before `i + m`: so `indexOf` is `i`.
   */
  lemma IndexOfAt(s: string, sub: string, i: nat, m: nat)
    requires m < |sub| && OccursAt(s, sub, i) && sub[m] !in s[..i + m]
    ensures IndexOf(s, sub) == Some(i)
  {
    forall j | 0 <= j < i ensures !OccursAt(s, sub, j) {
      if j + |sub| <= |s| {
        assert s[j..j + |sub|][m] == s[j + m];
        assert s[..i + m][j + m] == s[j + m];
      }
    }
  }

  /** A string containing `big` contains every piece of `big`. */
  lemma ContainsPiece(s: string, big: string, k: nat, sub: string)
    requires k + |sub| <= |big| && big[k..k + |sub|] == sub && Contains(s, big)
    ensures Contains(s, sub)
  {
    var i := IndexOf(s, big).value;
    assert s[i..i + |big|] == big;
    forall t | 0 <= t < |sub| ensures s[i + k + t] == sub[t] {
      assert s[i..i + |big|][k + t] == s[i + k + t];
      assert big[k..k + |sub|][t] == big[k + t];
    }
    assert s[i + k..i + k + |sub|] == sub;
    assert OccursAt(s, sub, i + k);
  }

  /** A string lacking one of the characters of `sub` does not contain `sub`. */
  lemma MissingCharNotContained(s: string, sub: string, k: nat)
    requires k < |sub| && sub[k] !in s
    ensures !Contains(s, sub)
  {
    forall i ensures !OccursAt(s, sub, i) {
      if 0 <= i && i + |sub| <= |s| {
        assert s[i + k] in s;
        assert s[i..i + |sub|][k] == s[i + k];
      }
    }
    ContainsIff(s, sub);
  }

  /** Number of occurrences of the character `c` in `s`. */
  function CountChar(s: string, c: char): nat {
    if |s| == 0 then 0 else (if s[0] == c then 1 else 0) + CountChar(s[1..], c)
  }

  lemma {:induction false} CountCharConcat(a: string, b: string, c: char)
    ensures CountChar(a + b, c) == CountChar(a, c) + CountChar(b, c)
    decreases |a|
  {
    if |a| > 0 {
      assert (a + b)[1..] == a[1..] + b;
      CountCharConcat(a[1..], b, c);
    } else {
      assert a + b == b;
    }
  }

  lemma CountCharAbsent(s: string, c: char)
    requires c !in s
    ensures CountChar(s, c) == 0
  {
  }

  /** A string without the separator character splits into itself alone. */
  lemma SplitWithoutChar(a: string, c: char)
    requires c !in a
    ensures Split(a, [c]) == [a]
  {
    MissingCharNotContained(a, [c], 0);
  }

  /** Splitting at the first separator character: the piece before it, then the split of the rest. */
  lemma SplitAtChar(a: string, c: char, rest: string)
    requires c !in a
    ensures Split(a + [c] + rest, [c]) == [a] + Split(rest, [c])
  {
    var s := a + [c] + rest;
    assert s[|a|..|a| + 1] == [c];
    assert s[..|a|] == a;
    IndexOfAt(s, [c], |a|, 0);
    assert s[|a| + 1..] == rest;
  }

  /** Three pieces without the separator, joined by it, split back into those pieces. */
  lemma SplitThree(a: string, b: string, c: string, sep: char)
    requires sep !in a && sep !in b && sep !in c
    ensures Split(a + [sep] + b + [sep] + c, [sep]) == [a, b, c]
  {
    SplitWithoutChar(c, sep);
    SplitAtChar(b, sep, c);
    assert a + [sep] + b + [sep] + c == a + [sep] + (b + [sep] + c);
    SplitAtChar(a, sep, b + [sep] + c);
  }

  /** Splitting at a one-character separator gives one piece more than there are separators. */
  lemma {:induction false} SplitCharCount(s: string, c: char)
    ensures |Split(s, [c])| == CountChar(s, c) + 1
    decreases |s|
  {
    var found := IndexOf(s, [c]);
    if found.None? {
      forall k | 0 <= k < |s| ensures s[k] != c {
        if s[k] == c { assert s[k..k + 1] == [c]; assert OccursAt(s, [c], k); }
      }
      CountCharAbsent(s, c);
      assert Split(s, [c]) == [s];
    } else {
      var i := found.value;
      var rest := s[i + 1..];
      SplitCharCount(rest, c);
      assert Split(s, [c]) == [s[..i]] + Split(rest, [c]);
      forall k | 0 <= k < i ensures s[..i][k] != c {
        if s[k] == c { assert s[k..k + 1] == [c]; assert OccursAt(s, [c], k); }
      }
      CountCharAbsent(s[..i], c);
      assert s[i..i + 1] == [c];
      assert s == s[..i] + ([c] + rest);
      CountCharConcat(s[..i], [c] + rest, c);
      assert ([c] + rest)[1..] == rest;
    }
  }

  /** `s.toLowerCase()` restricted to ASCII letters; other characters are kept. */
  function ToLowerAscii(s: string): (r: string)
    ensures |r| == |s|
    ensures forall k :: 0 <= k < |s| ==> r[k] == LowerChar(s[k])
  {
    if |s| == 0 then "" else [LowerChar(s[0])] + ToLowerAscii(s[1..])
  }

  function LowerChar(c: char): char {
    if 'A' <= c <= 'Z' then (c as int + 32) as char else c
  }
}
