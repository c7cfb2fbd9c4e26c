/** The few string operations of Python that the control panel relies on:
    `in` on strings, `str.lower()` and `str.split(sep)`. */
module Strings {
  import opened Wrappers

  /** One character of `str.lower()`, restricted to ASCII letters. */
  function LowerChar(c: char): char {
    if 'A' <= c <= 'Z' then (c as int + 32) as char else c
  }

  /** `s.lower()` for ASCII text; other characters are kept as they are. */
  function Lower(s: string): (r: string)
    ensures |r| == |s|
    ensures forall i :: 0 <= i < |s| ==> r[i] == LowerChar(s[i])
    ensures forall i :: 0 <= i < |r| ==> !('A' <= r[i] <= 'Z')
  {
    seq(|s|, i requires 0 <= i < |s| => LowerChar(s[i]))
  }

  /** Python's `pat in s`. */
  predicate Contains(s: string, pat: string)
    decreases |s|
  {
    pat <= s || (|s| > 0 && Contains(s[1..], pat))
  }

  /** `pat` occurs in `s` at offset `i`. */
  predicate OccursAt(s: string, pat: string, i: nat) {
    i + |pat| <= |s| && s[i..i + |pat|] == pat
  }

  lemma {:induction false} ContainsAt(s: string, pat: string, i: nat)
    requires OccursAt(s, pat, i)
    ensures Contains(s, pat)
    decreases i
  {
    if i == 0 {
      assert pat <= s;
    } else {
      assert s[1..][i - 1..i - 1 + |pat|] == s[i..i + |pat|];
      ContainsAt(s[1..], pat, i - 1);
    }
  }

  /** `pat` occurs at offset `i`, stated character by character. */
  lemma ContainsAtChars(s: string, pat: string, i: nat)
    requires i + |pat| <= |s|
    requires forall k :: 0 <= k < |pat| ==> s[i + k] == pat[k]
    ensures Contains(s, pat)
  {
    assert s[i..i + |pat|] == pat by {
      forall k | 0 <= k < |pat| ensures s[i..i + |pat|][k] == pat[k] {
        assert s[i..i + |pat|][k] == s[i + k];
      }
    }
    ContainsAt(s, pat, i);
  }

  /** The middle part of a concatenation occurs in it. */
  lemma ContainsMiddle(a: string, b: string, c: string)
    ensures Contains(a + b + c, b)
  {
    var s := a + b + c;
    forall k | 0 <= k < |b| ensures s[|a| + k] == b[k] {
      assert s[|a| + k] == (a + b)[|a| + k];
    }
    ContainsAtChars(s, b, |a|);
  }

  /** An occurrence of `pat` in `a + b + c` lies inside `b` when `a` lacks the first
      character of `pat` and `c` lacks its last one. */
  lemma ContainsOnlyInMiddle(a: string, b: string, c: string, pat: string)
    requires |pat| > 0 && pat[0] !in a && pat[|pat| - 1] !in c
    requires Contains(a + b + c, pat)
    ensures Contains(b, pat)
  {
    var s := a + b + c;
    var i := ContainsWitness(s, pat);
    assert s[i] == pat[0] by {
      assert s[i..i + |pat|][0] == s[i];
    }
    assert i >= |a|;
    var e := i + |pat| - 1;
    assert s[e] == pat[|pat| - 1] by {
      assert s[i..i + |pat|][|pat| - 1] == s[e];
    }
    assert e < |a| + |b|;
    forall k | 0 <= k < |pat| ensures b[i - |a| + k] == pat[k] {
      assert s[i..i + |pat|][k] == s[i + k];
      assert s[i + k] == b[i - |a| + k];
    }
    ContainsAtChars(b, pat, i - |a|);
  }

  /** Every character of `s` occurs in it as a one-character string. */
  lemma CharContained(s: string, i: nat)
    requires i < |s|
    ensures Contains(s, [s[i]])
  {
    ContainsAtChars(s, [s[i]], i);
  }

  lemma {:induction false} ContainsWitness(s: string, pat: string) returns (i: nat)
    requires Contains(s, pat)
    ensures OccursAt(s, pat, i)
    decreases |s|
  {
    if pat <= s {
      i := 0;
    } else {
      var j := ContainsWitness(s[1..], pat);
      assert s[1..][j..j + |pat|] == s[j + 1..j + 1 + |pat|];
      i := j + 1;
    }
  }

  /** A string that lacks the first character of `pat` cannot contain `pat`. */
  lemma {:induction false} MissingFirstChar(s: string, pat: string)
    requires |pat| > 0 && pat[0] !in s
    ensures !Contains(s, pat)
    decreases |s|
  {
    if |s| > 0 {
      assert pat[0] !in s[1..] by {
        forall k | 0 <= k < |s| - 1 ensures s[1..][k] != pat[0] { assert s[1..][k] == s[k + 1]; }
      }
      MissingFirstChar(s[1..], pat);
      assert s[0] != pat[0];
    }
  }

  /** Being a substring is transitive. */
  lemma {:induction false} ContainsTransitive(s: string, p: string, q: string)
    requires Contains(s, p) && Contains(p, q)
    ensures Contains(s, q)
  {
    var i := ContainsWitness(s, p);
    var j := ContainsWitness(p, q);
    assert s[i + j..i + j + |q|] == q by {
      forall k | 0 <= k < |q| ensures s[i + j..i + j + |q|][k] == q[k] {
        assert q[k] == p[j + k] == s[i + j + k];
      }
    }
    ContainsAt(s, q, i + j);
  }

  /** An occurrence in `s[1..]` is an occurrence in `s`, one position further. */
  lemma OccursShift(s: string, pat: string, j: nat)
    requires |s| > 0
    ensures OccursAt(s[1..], pat, j) <==> OccursAt(s, pat, j + 1)
  {
    if j + 1 + |pat| <= |s| {
      assert s[1..][j..j + |pat|] == s[j + 1..j + 1 + |pat|];
    }
  }

  /** The offset of the first occurrence of `pat` in `s` (Python's `s.find(pat)`). */
  function IndexOf(s: string, pat: string): (r: Option<nat>)
    ensures r.Some? <==> Contains(s, pat)
    ensures r.Some? ==> OccursAt(s, pat, r.value)
    ensures r.Some? ==> forall j :: 0 <= j < r.value ==> !OccursAt(s, pat, j)
    decreases |s|
  {
    if pat <= s then Some(0)
    else if |s| == 0 then None
    else
      var rest := IndexOf(s[1..], pat);
      if rest.None? then None
      else
        var i := rest.value;
        OccursShift(s, pat, i);
        assert forall j :: 0 < j < i + 1 ==> !OccursAt(s, pat, j) by {
          forall j | 0 < j < i + 1 ensures !OccursAt(s, pat, j) {
            OccursShift(s, pat, j - 1);
          }
        }
        Some(i + 1)
  }

  /** `sep.join(parts)`. */
  function Join(parts: seq<string>, sep: string): string
    decreases |parts|
  {
    if |parts| == 0 then ""
    else if |parts| == 1 then parts[0]
    else parts[0] + sep + Join(parts[1..], sep)
  }

  lemma JoinCons(first: string, rest: seq<string>, sep: string)
    requires |rest| >= 1
    ensures Join([first] + rest, sep) == first + sep + Join(rest, sep)
  {
    assert ([first] + rest)[1..] == rest;
  }

  /** The text before the first occurrence of `sep` does not contain `sep`. */
  lemma {:induction false} BeforeFirst(s: string, sep: string, i: nat)
    requires |sep| > 0 && OccursAt(s, sep, i)
    requires forall j :: 0 <= j < i ==> !OccursAt(s, sep, j)
    ensures !Contains(s[..i], sep)
    ensures s == s[..i] + sep + s[i + |sep|..]
  {
    if Contains(s[..i], sep) {
      var j := ContainsWitness(s[..i], sep);
      assert s[..i][j..j + |sep|] == s[j..j + |sep|];
      assert OccursAt(s, sep, j);
    }
  }

  /** Python's `s.split(sep)` for a non-empty separator: the pieces between
      successive non-overlapping occurrences, scanned from the left. */
  function Split(s: string, sep: string): (parts: seq<string>)
    requires |sep| > 0
    ensures |parts| >= 1
    ensures Join(parts, sep) == s
    ensures forall k :: 0 <= k < |parts| ==> !Contains(parts[k], sep)
    ensures |parts| == 1 <==> !Contains(s, sep)
    decreases |s|
  {
    match IndexOf(s, sep)
    case None => [s]
    case Some(i) =>
      var rest := Split(s[i + |sep|..], sep);
      BeforeFirst(s, sep, i);
      JoinCons(s[..i], rest, sep);
      assert forall k :: 1 <= k < 1 + |rest| ==> ([s[..i]] + rest)[k] == rest[k - 1];
      [s[..i]] + rest
  }

  /** Splitting at the first occurrence: the piece before it, then the pieces of the rest. */
  lemma SplitAtFirst(s: string, sep: string, i: nat)
    requires |sep| > 0 && IndexOf(s, sep) == Some(i)
    ensures Split(s, sep) == [s[..i]] + Split(s[i + |sep|..], sep)
  {
  }

  /** The first occurrence of a one-character pattern is the first position holding it. */
  lemma IndexOfChar(s: string, c: char, k: nat)
    requires k < |s| && s[k] == c
    requires forall j :: 0 <= j < k ==> s[j] != c
    ensures IndexOf(s, [c]) == Some(k)
  {
    ContainsAtChars(s, [c], k);
    var r := IndexOf(s, [c]).value;
    assert s[r..r + 1][0] == s[r];
    assert s[k..k + 1] == [c];
    assert OccursAt(s, [c], k);
  }

  /** The first position at or after `i` that holds `c`, when position `n` does and
      none before `i` does. */
  lemma {:induction false} FirstPosition(s: string, c: char, i: nat, n: nat) returns (k: nat)
    requires i <= n < |s| && s[n] == c
    requires forall j :: 0 <= j < i ==> s[j] != c
    ensures i <= k <= n && s[k] == c
    ensures forall j :: 0 <= j < k ==> s[j] != c
    decreases n - i
  {
    if s[i] == c {
      k := i;
    } else {
      k := FirstPosition(s, c, i + 1, n);
    }
  }

  /** Splitting at the first separator keeps the last piece of the rest. */
  lemma SplitLastStep(s: string, c: char, k: nat)
    requires IndexOf(s, [c]) == Some(k)
    ensures var parts := Split(s, [c]);
      var more := Split(s[k + 1..], [c]);
      parts[|parts| - 1] == more[|more| - 1]
  {
    var sep := [c];
    assert |sep| == 1;
    SplitAtFirst(s, sep, k);
    assert s[k + |sep|..] == s[k + 1..];
    var more := Split(s[k + 1..], sep);
    assert Split(s, sep) == [s[..k]] + more;
    LastOfCons(s[..k], more);
  }

  lemma LastOfCons(first: string, rest: seq<string>)
    requires |rest| >= 1
    ensures ([first] + rest)[|rest|] == rest[|rest| - 1]
  {
  }

  /** With a separator character, the last piece of a split is what follows the last
      separator, here at position `n`. */
  lemma {:induction false} SplitLast(s: string, c: char, n: nat)
    requires n < |s| && s[n] == c && c !in s[n + 1..]
    ensures var parts := Split(s, [c]);
      parts[|parts| - 1] == s[n + 1..]
    decreases n
  {
    var k := FirstPosition(s, c, 0, n);
    IndexOfChar(s, c, k);
    SplitLastStep(s, c, k);
    var t := s[k + 1..];
    if k == n {
      SplitWithoutSep(t, c);
    } else {
      assert t[n - k - 1] == c;
      assert t[n - k..] == s[n + 1..];
      SplitLast(t, c, n - k - 1);
    }
  }

  lemma SplitWithoutSep(s: string, c: char)
    requires c !in s
    ensures Split(s, [c]) == [s]
  {
    MissingFirstChar(s, [c]);
  }

  /** When `sep` occurs once, at `i`, the second piece is everything after it. */
  lemma SplitOnce(s: string, sep: string, i: nat)
    requires |sep| > 0 && IndexOf(s, sep) == Some(i)
    requires !Contains(s[i + |sep|..], sep)
    ensures |Split(s, sep)| == 2 && Split(s, sep)[1] == s[i + |sep|..]
  {
    SplitAtFirst(s, sep, i);
  }

  /** Splitting at the first position holding the separator character. */
  lemma SplitCharAt(s: string, c: char, k: nat)
    requires k < |s| && s[k] == c
    requires forall j :: 0 <= j < k ==> s[j] != c
    ensures Split(s, [c]) == [s[..k]] + Split(s[k + 1..], [c])
  {
    IndexOfChar(s, c, k);
    SplitAtFirst(s, [c], k);
  }

  lemma SegmentFacts(name: string, c: char, rest: string)
    requires c !in name
    ensures var t := name + [c] + rest;
      && t[|name|] == c && t[..|name|] == name && t[|name| + 1..] == rest
      && forall j :: 0 <= j < |name| ==> t[j] != c
  {
    var t := name + [c] + rest;
    forall j | 0 <= j < |name| ensures t[j] != c { assert t[j] == name[j]; }
  }

  /** The segment between the first two separator characters is the second piece. */
  lemma SplitSecond(s: string, c: char, name: string, rest: string)
    requires s == [c] + name + [c] + rest && c !in name
    ensures |Split(s, [c])| > 1 && Split(s, [c])[1] == name
  {
    var tail := name + [c] + rest;
    assert s[1..] == tail;
    SplitCharAt(s, c, 0);
    SegmentFacts(name, c, rest);
    SplitCharAt(tail, c, |name|);
  }
}
