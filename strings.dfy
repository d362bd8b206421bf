/**
 * The few JavaScript string operations the renderer and the explorer rely on,
 * written out over `seq<char>`: the whitespace class shared by `\s` and
 * `String.prototype.trim`, trimming, `split`, `join`, `replace(/\r\n/g, "\n")`,
 * `includes` and (ASCII) `toLowerCase`.
 */
module Strings {

  /** The characters matched by JavaScript's `\s`; `trim` removes exactly these. */
  predicate IsSpace(c: char) {
    || c == ' ' || c == '\t' || c == '\n' || c == '\r'
    || c == '\U{000B}' || c == '\U{000C}' || c == '\U{00A0}' || c == '\U{1680}'
    || ('\U{2000}' <= c <= '\U{200A}')
    || c == '\U{2028}' || c == '\U{2029}' || c == '\U{202F}' || c == '\U{205F}'
    || c == '\U{3000}' || c == '\U{FEFF}'
  }

  /** The characters a regex `.` does not match (and before which `$` fails). */
  predicate IsLineTerminator(c: char) {
    c == '\n' || c == '\r' || c == '\U{2028}' || c == '\U{2029}'
  }

  predicate AllSpace(s: string) {
    forall i :: 0 <= i < |s| ==> IsSpace(s[i])
  }

  /** No regex `.` would stop inside `s`: `.*$` can consume all of it. */
  predicate NoLineTerminator(s: string) {
    forall i :: 0 <= i < |s| ==> !IsLineTerminator(s[i])
  }

  /** `s.trimStart()`. */
  function TrimStart(s: string): (r: string)
    ensures |r| <= |s| && r == s[|s| - |r|..]
    ensures AllSpace(s[..|s| - |r|])
    ensures r != [] ==> !IsSpace(r[0])
  {
    if s != [] && IsSpace(s[0]) then
      var r := TrimStart(s[1..]);
      assert s[..|s| - |r|] == [s[0]] + s[1..][..|s| - 1 - |r|];
      assert s[|s| - |r|..] == s[1..][|s| - 1 - |r|..];
      r
    else s
  }

  /** `s.replace(/\s+$/, "")`, i.e. `s.trimEnd()`. */
  function TrimEnd(s: string): (r: string)
    ensures |r| <= |s| && r == s[..|r|]
    ensures AllSpace(s[|r|..])
    ensures r != [] ==> !IsSpace(r[|r| - 1])
  {
    if s != [] && IsSpace(s[|s| - 1]) then TrimEnd(s[..|s| - 1]) else s
  }

  /** `s.trim()`. */
  function Trim(s: string): (r: string)
    ensures r == [] <==> AllSpace(s)
    ensures r != [] ==> !IsSpace(r[0]) && !IsSpace(r[|r| - 1])
  {
    var t := TrimStart(s);
    var r := TrimEnd(t);
    var a := |s| - |t|;
    assert r != [] ==> !IsSpace(r[0]) by {
      if r != [] {
        assert r[0] == t[0];
      }
    }
    assert r == [] <==> AllSpace(s) by {
      if r == [] {
        assert t == [] by {
          assert t[|r|..] == t;
        }
        assert s[..a] == s;
      } else {
        assert s[a] == t[0] == r[0];
      }
    }
    r
  }

  /** `trim` returns the slice of `s` between its leading and its trailing whitespace. */
  lemma TrimSlice(s: string)
    ensures exists a: nat :: a + |Trim(s)| <= |s| && Trim(s) == s[a..a + |Trim(s)|]
                             && AllSpace(s[..a]) && AllSpace(s[a + |Trim(s)|..])
  {
    var t := TrimStart(s);
    var r := Trim(s);
    var a := |s| - |t|;
    assert r == TrimEnd(t);
    assert t == s[a..];
    assert r == s[a..a + |r|];
    assert s[a + |r|..] == t[|r|..];
  }


  /** A slice of a slice is a slice of the original. */
  lemma SliceOfSlice(s: string, i: nat, e: nat, a: nat, b: nat)
    requires i <= e <= |s| && a <= b <= e - i
    ensures s[i..e][a..b] == s[i + a..i + b]
  {
    assert |s[i..e][a..b]| == |s[i + a..i + b]|;
    forall k | 0 <= k < b - a ensures s[i..e][a..b][k] == s[i + a..i + b][k] {
    }
  }

  /** Index of the first `c` at or after `k`, or `|s|` when there is none. */
  function IndexFrom(s: string, k: nat, c: char): (j: nat)
    requires k <= |s|
    ensures k <= j <= |s|
    ensures c !in s[k..j]
    ensures j < |s| ==> s[j] == c
    decreases |s| - k
  {
    if k == |s| || s[k] == c then k else IndexFrom(s, k + 1, c)
  }

  /** The index `IndexFrom` finds is the only one with its two properties. */
  lemma IndexFromUnique(s: string, k: nat, c: char, j: nat)
    requires k <= j <= |s|
    requires c !in s[k..j]
    requires j < |s| ==> s[j] == c
    ensures IndexFrom(s, k, c) == j
  {
  }

  /** End of the run of whitespace that starts at `k`. */
  function SpaceRunEnd(s: string, k: nat): (j: nat)
    requires k <= |s|
    ensures k <= j <= |s|
    ensures AllSpace(s[k..j])
    ensures j < |s| ==> !IsSpace(s[j])
    decreases |s| - k
  {
    if k == |s| || !IsSpace(s[k]) then k else SpaceRunEnd(s, k + 1)
  }

  /** What is left after the whitespace run starting at `k` is that tail, trimmed at the start. */
  lemma {:induction false} SpaceRunEndTrimStart(s: string, k: nat)
    requires k <= |s|
    ensures s[SpaceRunEnd(s, k)..] == TrimStart(s[k..])
    decreases |s| - k
  {
    if k < |s| && IsSpace(s[k]) {
      assert s[k..][1..] == s[k + 1..];
      SpaceRunEndTrimStart(s, k + 1);
    }
  }

  /** `parts.join(sep)`. */
  function Join(parts: seq<string>, sep: string): string {
    if parts == [] then ""
    else if |parts| == 1 then parts[0]
    else parts[0] + sep + Join(parts[1..], sep)
  }

  /** `s.split(c)` for a one-character separator. */
  function Split(s: string, c: char): (parts: seq<string>)
    ensures |parts| >= 1
    ensures forall k :: 0 <= k < |parts| ==> c !in parts[k]
    decreases |s|
  {
    var i := IndexFrom(s, 0, c);
    if i == |s| then [s] else [s[..i]] + Split(s[i + 1..], c)
  }

  /** Splitting and re-joining gives back the text: `split` loses nothing but the separators. */
  lemma {:induction false} JoinSplit(s: string, c: char)
    ensures Join(Split(s, c), [c]) == s
    decreases |s|
  {
    var i := IndexFrom(s, 0, c);
    if i < |s| {
      JoinSplit(s[i + 1..], c);
      assert s == s[..i] + [c] + s[i + 1..];
    }
  }

  /** `s.replace(/\r\n/g, "\n")`: each CR LF pair, scanned left to right, becomes LF. */
  function NormalizeNewlines(s: string): (r: string)
    ensures |r| <= |s|
    ensures '\r' !in s ==> r == s
  {
    if |s| >= 2 && s[0] == '\r' && s[1] == '\n' then "\n" + NormalizeNewlines(s[2..])
    else if s == [] then []
    else [s[0]] + NormalizeNewlines(s[1..])
  }

  /**
   * The replacement works piece by piece: a CR LF pair becomes LF, any single
   * character is kept, and two pieces are replaced independently unless the
   * first ends in CR (which could pair with an LF opening the second).
   */
  lemma NormalizeNewlinesPieces(c: char)
    ensures NormalizeNewlines("\r\n") == "\n"
    ensures NormalizeNewlines([c]) == [c]
  {
  }

  lemma {:induction false} NormalizeNewlinesAppend(a: string, b: string)
    requires a == [] || a[|a| - 1] != '\r'
    ensures NormalizeNewlines(a + b) == NormalizeNewlines(a) + NormalizeNewlines(b)
    decreases |a|
  {
    if a == [] {
      assert a + b == b;
    } else if |a| >= 2 && a[0] == '\r' && a[1] == '\n' {
      assert (a + b)[2..] == a[2..] + b;
      NormalizeNewlinesAppend(a[2..], b);
    } else {
      assert |a| >= 2 ==> (a + b)[1] == a[1];
      assert |a| == 1 ==> a[0] != '\r';
      assert (a + b)[1..] == a[1..] + b;
      NormalizeNewlinesAppend(a[1..], b);
    }
  }

  /** `s.replace(/`/g, "")` for any one character. */
  function RemoveAll(s: string, c: char): (r: string)
    ensures c !in r
    ensures |r| <= |s|
    ensures c !in s ==> r == s
  {
    if s == [] then []
    else if s[0] == c then RemoveAll(s[1..], c)
    else [s[0]] + RemoveAll(s[1..], c)
  }

  /** Removal drops the one character and keeps every other character, in order. */
  lemma RemoveAllPieces(c: char, x: char)
    ensures RemoveAll([c], c) == []
    ensures x != c ==> RemoveAll([x], c) == [x]
  {
  }

  lemma {:induction false} RemoveAllAppend(a: string, b: string, c: char)
    ensures RemoveAll(a + b, c) == RemoveAll(a, c) + RemoveAll(b, c)
    decreases |a|
  {
    if a == [] {
      assert a + b == b;
    } else {
      assert (a + b)[1..] == a[1..] + b;
      RemoveAllAppend(a[1..], b, c);
    }
  }

  function LowerChar(c: char): char {
    if 'A' <= c <= 'Z' then (c as int + 32) as char else c
  }

  /** `s.toLowerCase()` on the ASCII letters. */
  function Lower(s: string): (r: string)
    ensures |r| == |s|
    ensures forall i :: 0 <= i < |s| ==> r[i] == LowerChar(s[i])
  {
    if s == [] then [] else [LowerChar(s[0])] + Lower(s[1..])
  }

  /** `hay.includes(needle)`. */
  predicate Contains(hay: string, needle: string)
    decreases |hay|
  {
    needle <= hay || (hay != [] && Contains(hay[1..], needle))
  }

  predicate OccursAt(hay: string, needle: string, i: nat) {
    i + |needle| <= |hay| && hay[i..i + |needle|] == needle
  }

  /** `includes` means: the needle occurs at some offset. */
  lemma {:induction false} ContainsAt(hay: string, needle: string)
    ensures Contains(hay, needle) <==> exists i: nat :: OccursAt(hay, needle, i)
    decreases |hay|
  {
    if needle <= hay {
      assert OccursAt(hay, needle, 0);
    } else if hay != [] {
      ContainsAt(hay[1..], needle);
      if exists i: nat :: OccursAt(hay, needle, i) {
        var i: nat :| OccursAt(hay, needle, i);
        assert i != 0;
        assert OccursAt(hay[1..], needle, i - 1);
      }
      if Contains(hay[1..], needle) {
        var i: nat :| OccursAt(hay[1..], needle, i);
        assert OccursAt(hay, needle, i + 1);
      }
    }
  }

  /** Every string contains the empty string. */
  lemma ContainsEmpty(hay: string)
    ensures Contains(hay, "")
  {
  }
}
