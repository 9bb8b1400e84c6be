/**
 * The few Python string operations the blog's code relies on, over `string`
 * (a sequence of Unicode scalar values): whitespace as `str.isspace` sees it,
 * `str.strip`, `str.split(sep)`, `str.replace(target, repl)`, substring search and
 * the code-point order a database's binary collation uses to sort text.
 */
module Text {

  /** Python's `str.isspace`; `str.strip()` and the regex class `\s` use the same set. */
  predicate IsSpace(c: char) {
    c == ' ' || ('\t' <= c <= '\r') || ('\U{1c}' <= c <= '\U{1f}')
    || c == '\U{85}' || c == '\U{a0}' || c == '\U{1680}'
    || ('\U{2000}' <= c <= '\U{200a}') || c == '\U{2028}' || c == '\U{2029}'
    || c == '\U{202f}' || c == '\U{205f}' || c == '\U{3000}'
  }

  predicate AllSpace(s: string) {
    forall i :: 0 <= i < |s| ==> IsSpace(s[i])
  }

  /** `sub` occurs in `s` (Python's `sub in s`). */
  predicate Contains(s: string, sub: string) {
    exists i :: 0 <= i <= |s| && sub <= s[i..]
  }

  function TrimStart(s: string): (r: string)
    ensures r == [] || !IsSpace(r[0])
    ensures |r| <= |s| && r == s[|s| - |r|..]
    ensures AllSpace(s[..|s| - |r|])
  {
    if s != [] && IsSpace(s[0]) then
      var r := TrimStart(s[1..]);
      assert s[1..][..|s| - 1 - |r|] == s[1..|s| - |r|];
      r
    else s
  }

  function TrimEnd(s: string): (r: string)
    ensures r == [] || !IsSpace(r[|r| - 1])
    ensures |r| <= |s| && r == s[..|r|]
    ensures AllSpace(s[|r|..])
  {
    if s != [] && IsSpace(s[|s| - 1]) then
      var r := TrimEnd(s[..|s| - 1]);
      assert s[..|s| - 1][|r|..] + [s[|s| - 1]] == s[|r|..];
      r
    else s
  }

  /**
   * Python's `s.strip()`: the text between the leading and the trailing
   * whitespace. The result has no whitespace at either end and is a slice of `s`.
   */
  function Strip(s: string): (r: string)
    ensures r == [] || (!IsSpace(r[0]) && !IsSpace(r[|r| - 1]))
    ensures r == [] <==> AllSpace(s)
  {
    var t := TrimStart(s);
    var r := TrimEnd(t);
    assert t[|r|..] == t <== r == [];
    assert s[..|s| - |t|] == s <== t == [];
    assert r != [] ==> r[|r| - 1] == t[|r| - 1];
    r
  }

  /** Stripping only removes characters: every character of the result is one of `s`. */
  lemma StripChars(s: string)
    ensures forall c :: c in Strip(s) ==> c in s
  {
    var t := TrimStart(s);
    var r := TrimEnd(t);
    assert r == s[|s| - |t|..|s| - |t| + |r|];
    SliceChars(s, r, |s| - |t|);
  }

  /** A text with no whitespace at either end is its own strip. */
  lemma StripKeepsStripped(s: string)
    requires s == [] || (!IsSpace(s[0]) && !IsSpace(s[|s| - 1]))
    ensures Strip(s) == s
  {
    var t := TrimStart(s);
    var r := TrimEnd(t);
  }

  /** Every character of a slice of `s` is a character of `s`. */
  lemma SliceChars(s: string, r: string, i: nat)
    requires i <= |s| - |r| && r == s[i..i + |r|]
    ensures forall c :: c in r ==> c in s
  {
    forall c | c in r ensures c in s {
      var k :| 0 <= k < |r| && r[k] == c;
      assert s[i + k] == c;
    }
  }

  /**
   * Python's `s.split(sep)` for a non-empty separator: the pieces between the
   * leftmost non-overlapping occurrences of `sep`. There is always one piece
   * more than there are separators, so splitting the empty string gives `[""]`.
   */
  function Split(s: string, sep: string): (r: seq<string>)
    requires |sep| > 0
    ensures |r| >= 1
    decreases |s|
  {
    if |s| < |sep| then [s]
    else if sep <= s then [""] + Split(s[|sep|..], sep)
    else
      var rest := Split(s[1..], sep);
      [[s[0]] + rest[0]] + rest[1..]
  }

  /** Python's `sep.join(pieces)`. */
  function Join(pieces: seq<string>, sep: string): string
    requires |pieces| >= 1
  {
    if |pieces| == 1 then pieces[0] else pieces[0] + sep + Join(pieces[1..], sep)
  }

  /** Splitting loses nothing: joining the pieces with the separator gives the text back. */
  lemma {:induction false} JoinSplit(s: string, sep: string)
    requires |sep| > 0
    ensures Join(Split(s, sep), sep) == s
    decreases |s|
  {
    if |s| < |sep| {
    } else if sep <= s {
      var rest := Split(s[|sep|..], sep);
      JoinSplit(s[|sep|..], sep);
      assert Split(s, sep) == [""] + rest;
      assert ([""] + rest)[1..] == rest;
      assert s == sep + s[|sep|..];
    } else {
      var rest := Split(s[1..], sep);
      JoinSplit(s[1..], sep);
      assert Split(s, sep) == [[s[0]] + rest[0]] + rest[1..];
      JoinFirstPiece(s[0], rest, sep);
      assert s == [s[0]] + s[1..];
    }
  }

  /** A character put before the first piece comes out before the joined text. */
  lemma JoinFirstPiece(c: char, pieces: seq<string>, sep: string)
    requires |pieces| >= 1
    ensures Join([[c] + pieces[0]] + pieces[1..], sep) == [c] + Join(pieces, sep)
  {
    var ps := [[c] + pieces[0]] + pieces[1..];
    if |pieces| > 1 {
      assert ps[1..] == pieces[1..];
      assert Join(ps, sep) == [c] + pieces[0] + sep + Join(pieces[1..], sep);
    }
  }

  /** No piece of a split contains the separator. */
  lemma {:induction false} SplitPiecesLackSep(s: string, sep: string)
    requires |sep| > 0
    ensures forall k :: 0 <= k < |Split(s, sep)| ==> !Contains(Split(s, sep)[k], sep)
    ensures Split(s, sep)[0] <= s
    decreases |s|
  {
    var r := Split(s, sep);
    if |s| < |sep| {
    } else if sep <= s {
      SplitPiecesLackSep(s[|sep|..], sep);
      assert forall k :: 1 <= k < |r| ==> r[k] == Split(s[|sep|..], sep)[k - 1];
    } else {
      SplitPiecesLackSep(s[1..], sep);
      var rest := Split(s[1..], sep);
      var first := [s[0]] + rest[0];
      assert first <= s;
      forall i | 0 <= i <= |first| ensures !(sep <= first[i..]) {
        if i == 0 {
          assert first[0..] == first;
          if |sep| <= |first| { assert first[..|sep|] == s[..|sep|]; }
        } else {
          assert first[i..] == rest[0][i - 1..];
        }
      }
      assert forall k :: 1 <= k < |r| ==> r[k] == rest[k];
    }
  }

  /** A text that contains the separator splits into at least two pieces. */
  lemma {:induction false} SplitOnPresentSep(s: string, sep: string)
    requires |sep| > 0 && Contains(s, sep)
    ensures |Split(s, sep)| >= 2
    decreases |s|
  {
    var i :| 0 <= i <= |s| && sep <= s[i..];
    if |s| < |sep| {
    } else if sep <= s {
      assert |Split(s, sep)| == 1 + |Split(s[|sep|..], sep)|;
    } else {
      assert i > 0;
      assert s[1..][i - 1..] == s[i..];
      SplitOnPresentSep(s[1..], sep);
    }
  }

  /** A text without the separator is one piece: itself. */
  lemma {:induction false} SplitAbsent(s: string, sep: string)
    requires |sep| > 0 && !Contains(s, sep)
    ensures Split(s, sep) == [s]
    decreases |s|
  {
    if |s| >= |sep| {
      assert s[0..] == s;
      forall i | 0 <= i <= |s[1..]| ensures !(sep <= s[1..][i..]) {
        assert s[1..][i..] == s[i + 1..];
      }
      SplitAbsent(s[1..], sep);
      assert [s[0]] + s[1..] == s;
    }
  }

  /**
   * When `sep` first occurs right after `a`, the first piece of the split is `a`
   * and the rest is the split of what follows that separator.
   */
  lemma {:induction false} SplitAfterFirst(a: string, sep: string, b: string)
    requires |sep| > 0
    requires forall i :: 0 <= i < |a| ==> !(sep <= (a + sep + b)[i..])
    ensures Split(a + sep + b, sep) == [a] + Split(b, sep)
    decreases |a|
  {
    var s := a + sep + b;
    if a == [] {
      assert s == sep + b;
      assert s[|sep|..] == b;
    } else {
      assert !(sep <= s[0..]);
      assert s[0..] == s;
      assert s[1..] == a[1..] + sep + b;
      forall i | 0 <= i < |a[1..]| ensures !(sep <= (a[1..] + sep + b)[i..]) {
        assert (a[1..] + sep + b)[i..] == s[i + 1..];
      }
      SplitAfterFirst(a[1..], sep, b);
      assert [a[0]] + a[1..] == a;
    }
  }

  /**
   * Python's `s.replace(target, repl)` for a non-empty `target`: every leftmost,
   * non-overlapping occurrence of `target` is replaced by `repl`.
   */
  function ReplaceAll(s: string, target: string, repl: string): string
    requires |target| > 0
    decreases |s|
  {
    if |s| < |target| then s
    else if target <= s then repl + ReplaceAll(s[|target|..], target, repl)
    else [s[0]] + ReplaceAll(s[1..], target, repl)
  }

  /** Replacing a text that does not occur changes nothing. */
  lemma {:induction false} ReplaceAbsent(s: string, target: string, repl: string)
    requires |target| > 0 && !Contains(s, target)
    ensures ReplaceAll(s, target, repl) == s
    decreases |s|
  {
    if |s| >= |target| {
      assert s[0..] == s;
      assert !(target <= s);
      forall i | 0 <= i <= |s[1..]| ensures !(target <= s[1..][i..]) {
        assert s[1..][i..] == s[i + 1..];
      }
      ReplaceAbsent(s[1..], target, repl);
      assert [s[0]] + s[1..] == s;
    }
  }

  /** A replacement shorter than its target never lengthens the text, and shortens it whenever the target occurs. */
  lemma {:induction false} ReplaceShrinks(s: string, target: string, repl: string)
    requires |target| > 0 && |repl| < |target|
    ensures |ReplaceAll(s, target, repl)| <= |s|
    ensures Contains(s, target) ==> |ReplaceAll(s, target, repl)| < |s|
    decreases |s|
  {
    if |s| < |target| {
    } else if target <= s {
      ReplaceShrinks(s[|target|..], target, repl);
    } else {
      ReplaceShrinks(s[1..], target, repl);
      if Contains(s, target) {
        var i :| 0 <= i <= |s| && target <= s[i..];
        assert s[0..] == s;
        assert i > 0;
        assert s[1..][i - 1..] == s[i..];
      }
    }
  }

  /** No occurrence of `target` starts inside `a` and runs on into `b`. */
  predicate NoStraddle(a: string, b: string, target: string) {
    forall i :: 0 <= i < |a| && |a| < i + |target| ==> !(target <= (a + b)[i..])
  }

  lemma NoStraddleTail(a: string, b: string, target: string, k: nat)
    requires k <= |a| && NoStraddle(a, b, target)
    ensures NoStraddle(a[k..], b, target)
  {
    forall i | 0 <= i < |a[k..]| && |a[k..]| < i + |target|
      ensures !(target <= (a[k..] + b)[i..])
    {
      assert (a[k..] + b)[i..] == (a + b)[i + k..];
    }
  }

  /**
   * Replacement distributes over a concatenation when no occurrence of `target`
   * starts in `a` and runs on into `b`.
   */
  lemma {:induction false} ReplaceConcat(a: string, b: string, target: string, repl: string)
    requires |target| > 0 && NoStraddle(a, b, target)
    ensures ReplaceAll(a + b, target, repl) == ReplaceAll(a, target, repl) + ReplaceAll(b, target, repl)
    decreases |a|
  {
    var s := a + b;
    if a == [] {
      assert s == b;
    } else if |s| < |target| {
    } else if target <= s {
      assert (a + b)[0..] == s;
      assert |target| <= |a|;
      assert target <= a by { assert a[..|target|] == s[..|target|]; }
      assert s[|target|..] == a[|target|..] + b;
      NoStraddleTail(a, b, target, |target|);
      ReplaceConcat(a[|target|..], b, target, repl);
    } else {
      assert !(target <= a) by {
        if |target| <= |a| { assert a[..|target|] == s[..|target|]; }
      }
      assert s[1..] == a[1..] + b;
      NoStraddleTail(a, b, target, 1);
      ReplaceConcat(a[1..], b, target, repl);
      if |a| < |target| {
        assert ReplaceAll(a[1..], target, repl) == a[1..];
        assert a == [a[0]] + a[1..];
      }
    }
  }

  /** `a` sorts no later than `b` in code-point (binary collation) order. */
  predicate StrLe(a: string, b: string) {
    if a == [] then true
    else if b == [] then false
    else if a[0] != b[0] then a[0] < b[0]
    else StrLe(a[1..], b[1..])
  }

  lemma {:induction false} StrLeTotal(a: string, b: string)
    ensures StrLe(a, b) || StrLe(b, a)
  {
    if a != [] && b != [] && a[0] == b[0] { StrLeTotal(a[1..], b[1..]); }
  }

  lemma {:induction false} StrLeTransitive(a: string, b: string, c: string)
    requires StrLe(a, b) && StrLe(b, c)
    ensures StrLe(a, c)
  {
    if a != [] && b != [] && c != [] && a[0] == b[0] && b[0] == c[0] {
      StrLeTransitive(a[1..], b[1..], c[1..]);
    }
  }

  lemma {:induction false} StrLeAntisymmetric(a: string, b: string)
    requires StrLe(a, b) && StrLe(b, a)
    ensures a == b
  {
    if a != [] && b != [] {
      StrLeAntisymmetric(a[1..], b[1..]);
      assert a == [a[0]] + a[1..] && b == [b[0]] + b[1..];
    }
  }
}
