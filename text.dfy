/**
 * The JavaScript string primitives the extension relies on, with their exact
 * ECMAScript behaviour: trim, startsWith, indexOf, lastIndexOf, substring
 * (which clamps and swaps its arguments) and split on one character.
 * Positions that JavaScript reports as -1 stay -1 here.
 */
module Text {

  /** JavaScript white space and line terminators: what `trim` removes and `\s` matches. */
  predicate IsSpace(c: char)
  {
    c in {' ', '\t', '\n', '\r', '\U{000B}', '\U{000C}', '\U{00A0}', '\U{1680}',
          '\U{2000}', '\U{2001}', '\U{2002}', '\U{2003}', '\U{2004}', '\U{2005}',
          '\U{2006}', '\U{2007}', '\U{2008}', '\U{2009}', '\U{200A}', '\U{2028}',
          '\U{2029}', '\U{202F}', '\U{205F}', '\U{3000}', '\U{FEFF}'}
  }

  /** `String.prototype.trimStart` */
  function TrimStart(s: string): (r: string)
    ensures |r| <= |s|
  {
    if |s| > 0 && IsSpace(s[0]) then TrimStart(s[1..]) else s
  }

  /** `String.prototype.trimEnd` */
  function TrimEnd(s: string): (r: string)
    ensures |r| <= |s|
  {
    if |s| > 0 && IsSpace(s[|s| - 1]) then TrimEnd(s[..|s| - 1]) else s
  }

  /** `String.prototype.trim` */
  function Trim(s: string): (r: string)
    ensures |r| <= |s|
  {
    TrimEnd(TrimStart(s))
  }

  /** TrimStart removes exactly the leading white space: what it drops is space, and what remains does not start with space. */
  lemma {:induction false} TrimStartSpec(s: string)
    ensures var r := TrimStart(s);
      && r == s[|s| - |r|..]
      && (r == [] || !IsSpace(r[0]))
      && forall i :: 0 <= i < |s| - |r| ==> IsSpace(s[i])
  {
    if |s| > 0 && IsSpace(s[0]) {
      TrimStartSpec(s[1..]);
      var r := TrimStart(s);
      forall i | 0 <= i < |s| - |r| ensures IsSpace(s[i]) {
        if i > 0 {
          assert s[i] == s[1..][i - 1];
        }
      }
    }
  }

  /** TrimEnd removes exactly the trailing white space. */
  lemma {:induction false} TrimEndSpec(s: string)
    ensures var r := TrimEnd(s);
      && r == s[..|r|]
      && (r == [] || !IsSpace(r[|r| - 1]))
      && forall i :: |r| <= i < |s| ==> IsSpace(s[i])
  {
    if |s| > 0 && IsSpace(s[|s| - 1]) {
      TrimEndSpec(s[..|s| - 1]);
      var r := TrimEnd(s);
      forall i | |r| <= i < |s| ensures IsSpace(s[i]) {
        if i < |s| - 1 {
          assert s[i] == s[..|s| - 1][i];
        }
      }
    }
  }

  /**
   * Trim removes exactly the leading and the trailing white space: what is
   * left is a slice of the input that neither starts nor ends with white
   * space, and every character dropped before or after it is white space.
   */
  lemma TrimSpec(s: string)
    ensures var r := Trim(s); var a := |s| - |TrimStart(s)|;
      && a + |r| <= |s|
      && r == s[a..a + |r|]
      && (r == [] || (!IsSpace(r[0]) && !IsSpace(r[|r| - 1])))
      && (forall i :: 0 <= i < a ==> IsSpace(s[i]))
      && (forall i :: a + |r| <= i < |s| ==> IsSpace(s[i]))
  {
    TrimStartSpec(s);
    var t := TrimStart(s);
    var a := |s| - |t|;
    TrimEndSpec(t);
    var r := TrimEnd(t);
    if r != [] {
      assert r[0] == t[0];
    }
    assert r == s[a..a + |r|];
    forall i | a + |r| <= i < |s| ensures IsSpace(s[i]) {
      assert s[i] == t[i - a];
    }
  }

  /** A string that neither starts nor ends with white space is its own trim. */
  lemma TrimUnspaced(s: string)
    requires s == [] || (!IsSpace(s[0]) && !IsSpace(s[|s| - 1]))
    ensures Trim(s) == s
  {
    assert TrimStart(s) == s;
  }

  /** `lines.map((it) => it.trim())` */
  function TrimAll(lines: seq<string>): (r: seq<string>)
    ensures |r| == |lines|
    ensures forall j :: 0 <= j < |lines| ==> r[j] == Trim(lines[j])
  {
    if lines == [] then [] else [Trim(lines[0])] + TrimAll(lines[1..])
  }

  /** VS Code's `TextLine.isEmptyOrWhitespace` */
  predicate IsBlank(s: string)
  {
    TrimStart(s) == []
  }

  /** `String.prototype.startsWith` */
  predicate StartsWith(s: string, prefix: string)
  {
    |prefix| <= |s| && s[..|prefix|] == prefix
  }

  function Clamp(x: int, hi: nat): (r: nat)
    ensures r <= hi
    ensures 0 <= x <= hi ==> r == x
  {
    if x < 0 then 0 else if x > hi then hi else x
  }

  /** `s.substring(a, b)`: both ends clamped to the string, swapped when out of order. */
  function Substring(s: string, a: int, b: int): (r: string)
    ensures |r| <= |s|
  {
    var x, y := Clamp(a, |s|), Clamp(b, |s|);
    if x <= y then s[x..y] else s[y..x]
  }

  /** `s.substring(a)` */
  function SubstringFrom(s: string, a: int): (r: string)
    ensures |r| <= |s|
  {
    s[Clamp(a, |s|)..]
  }

  /** In range, substring is the slice; out of order, the ends are swapped; past the end, it is empty. */
  lemma SubstringSpec(s: string, a: int, b: int)
    ensures 0 <= a <= b <= |s| ==> Substring(s, a, b) == s[a..b]
    ensures 0 <= b <= a <= |s| ==> Substring(s, a, b) == s[b..a]
    ensures 0 <= a <= |s| ==> SubstringFrom(s, a) == s[a..]
    ensures a >= |s| ==> SubstringFrom(s, a) == []
  {
  }

  /** The largest position below `end` holding `c`, or -1. */
  function LastIndexBefore(s: string, c: char, end: nat): (r: int)
    requires end <= |s|
    ensures -1 <= r < end
  {
    if end == 0 then -1
    else if s[end - 1] == c then end - 1
    else LastIndexBefore(s, c, end - 1)
  }

  /** LastIndexBefore finds `c`, and no later position below `end` holds it. */
  lemma {:induction false} LastIndexBeforeSpec(s: string, c: char, end: nat)
    requires end <= |s|
    ensures var r := LastIndexBefore(s, c, end);
      && (r >= 0 ==> s[r] == c)
      && forall k :: r < k < end ==> s[k] != c
  {
    if end > 0 && s[end - 1] != c {
      LastIndexBeforeSpec(s, c, end - 1);
    }
  }

  /** `s.lastIndexOf(c)` for a one-character search string */
  function LastIndexOf(s: string, c: char): (r: int)
    ensures -1 <= r < |s|
  {
    LastIndexBefore(s, c, |s|)
  }

  /** lastIndexOf finds the last occurrence of `c`, and -1 exactly when there is none. */
  lemma LastIndexOfSpec(s: string, c: char)
    ensures var r := LastIndexOf(s, c);
      && (r >= 0 ==> s[r] == c)
      && (forall k :: r < k < |s| ==> s[k] != c)
      && (r == -1 <==> c !in s)
  {
    LastIndexBeforeSpec(s, c, |s|);
  }

  /** `s.lastIndexOf(c, from)`: the search starts at `from` clamped to the string. */
  function LastIndexOfFrom(s: string, c: char, from: int): (r: int)
    ensures -1 <= r < |s|
    ensures r <= Clamp(from, |s|)
  {
    var start := Clamp(from, |s|);
    LastIndexBefore(s, c, if start < |s| then start + 1 else |s|)
  }

  /** lastIndexOf from a position finds the last occurrence at or before it. */
  lemma LastIndexOfFromSpec(s: string, c: char, from: int)
    ensures var r := LastIndexOfFrom(s, c, from);
      && (r >= 0 ==> s[r] == c)
      && forall k :: r < k < |s| && k <= from ==> s[k] != c
  {
    var start := Clamp(from, |s|);
    LastIndexBeforeSpec(s, c, if start < |s| then start + 1 else |s|);
  }

  /** True when `pattern` occurs in `s` at position `k`. */
  predicate OccursAt(s: string, pattern: string, k: nat)
  {
    k + |pattern| <= |s| && s[k..k + |pattern|] == pattern
  }

  function IndexFrom(s: string, pattern: string, start: nat): (r: int)
    requires start <= |s|
    ensures r == -1 || start <= r <= |s|
    decreases |s| - start
  {
    if OccursAt(s, pattern, start) then start
    else if start == |s| then -1
    else IndexFrom(s, pattern, start + 1)
  }

  /** IndexFrom finds the first occurrence at or after `start`. */
  lemma {:induction false} IndexFromSpec(s: string, pattern: string, start: nat)
    requires start <= |s|
    ensures var r := IndexFrom(s, pattern, start);
      && (r >= 0 ==> OccursAt(s, pattern, r))
      && forall k :: start <= k && (r == -1 || k < r) ==> !OccursAt(s, pattern, k)
    decreases |s| - start
  {
    if !OccursAt(s, pattern, start) && start < |s| {
      IndexFromSpec(s, pattern, start + 1);
    }
  }

  /** `s.indexOf(pattern, from)`: the first occurrence at or after `from` clamped to the string, or -1. */
  function IndexOfFrom(s: string, pattern: string, from: int): (r: int)
    ensures r == -1 || Clamp(from, |s|) <= r <= |s|
  {
    IndexFrom(s, pattern, Clamp(from, |s|))
  }

  /** `s.indexOf(pattern)` */
  function IndexOf(s: string, pattern: string): (r: int)
    ensures r == -1 || 0 <= r <= |s|
  {
    IndexOfFrom(s, pattern, 0)
  }

  /** indexOf finds the first occurrence at or after the clamped start, and -1 when there is none. */
  lemma IndexOfFromSpec(s: string, pattern: string, from: int)
    ensures var r := IndexOfFrom(s, pattern, from);
      && (r >= 0 ==> OccursAt(s, pattern, r))
      && forall k :: Clamp(from, |s|) <= k && (r == -1 || k < r) ==> !OccursAt(s, pattern, k)
  {
    IndexFromSpec(s, pattern, Clamp(from, |s|));
  }

  /**
   * `s.split(sep)` for a one-character separator: the pieces between
   * separators, so never empty; an empty string gives one empty piece.
   */
  function Split(s: string, sep: char): (r: seq<string>)
    ensures |r| >= 1
  {
    if s == [] then [[]]
    else
      var rest := Split(s[1..], sep);
      if s[0] == sep then [[]] + rest else [[s[0]] + rest[0]] + rest[1..]
  }

  /** No piece of a split contains the separator. */
  lemma {:induction false} SplitPieces(s: string, sep: char)
    ensures forall i :: 0 <= i < |Split(s, sep)| ==> sep !in Split(s, sep)[i]
  {
    if s != [] {
      SplitPieces(s[1..], sep);
      var rest := Split(s[1..], sep);
      var r := Split(s, sep);
      forall i | 0 <= i < |r| ensures sep !in r[i] {
        if s[0] == sep {
          assert i == 0 || r[i] == rest[i - 1];
        } else if i > 0 {
          assert r[i] == rest[i];
        } else {
          assert sep !in rest[0];
          assert r[0] == [s[0]] + rest[0];
        }
      }
    }
  }

  /** `parts.join(sep)` */
  function Join(parts: seq<string>, sep: char): string
  {
    if |parts| == 0 then []
    else if |parts| == 1 then parts[0]
    else parts[0] + [sep] + Join(parts[1..], sep)
  }

  /** Joining two non-empty lists of pieces: the two joins, one separator between them. */
  lemma {:induction false} JoinAppend(a: seq<string>, b: seq<string>, sep: char)
    requires a != [] && b != []
    ensures Join(a + b, sep) == Join(a, sep) + [sep] + Join(b, sep)
    decreases |a|
  {
    if |a| == 1 {
      assert (a + b)[1..] == b;
    } else {
      JoinAppend(a[1..], b, sep);
      assert (a + b)[1..] == a[1..] + b;
    }
  }

  /** Joining with the last piece of `a` and the first of `b` glued into one piece: the two joins back to back. */
  lemma JoinGlue(a: seq<string>, b: seq<string>, sep: char)
    requires a != [] && b != []
    ensures Join(a[..|a| - 1] + [a[|a| - 1] + b[0]] + b[1..], sep) == Join(a, sep) + Join(b, sep)
  {
    var last := a[|a| - 1];
    var glued := [last + b[0]] + b[1..];
    if |b| > 1 {
      assert glued[1..] == b[1..];
    }
    assert Join(glued, sep) == last + Join(b, sep);
    if |a| > 1 {
      var init := a[..|a| - 1];
      JoinAppend(init, glued, sep);
      JoinAppend(init, [last], sep);
      assert init + [last] == a;
      assert init + [last + b[0]] + b[1..] == init + glued;
    } else {
      assert a[..|a| - 1] + [last + b[0]] + b[1..] == glued;
    }
  }

  /** Splitting on a character and joining back on it gives the original string. */
  lemma {:induction false} SplitJoin(s: string, sep: char)
    ensures Join(Split(s, sep), sep) == s
  {
    if s != [] {
      var rest := Split(s[1..], sep);
      SplitJoin(s[1..], sep);
      if s[0] == sep {
        assert ([[]] + rest)[1..] == rest;
      } else {
        var r := [[s[0]] + rest[0]] + rest[1..];
        if |rest| == 1 {
          assert r == [[s[0]] + rest[0]];
        } else {
          assert r[1..] == rest[1..];
          assert Join(rest, sep) == rest[0] + [sep] + Join(rest[1..], sep);
        }
      }
    }
  }

  /** A string without the separator splits into itself alone. */
  lemma {:induction false} SplitNoSeparator(s: string, sep: char)
    requires sep !in s
    ensures Split(s, sep) == [s]
  {
    if s != [] {
      SplitNoSeparator(s[1..], sep);
      assert [s[0]] + s[1..] == s;
    }
  }

  /** Splitting at the first separator: the text before it is the first piece, the rest splits on its own. */
  lemma {:induction false} SplitAtFirst(a: string, b: string, sep: char)
    requires sep !in a
    ensures Split(a + [sep] + b, sep) == [a] + Split(b, sep)
  {
    if a == [] {
      assert a + [sep] + b == [sep] + b;
      assert ([sep] + b)[1..] == b;
    } else {
      SplitAtFirst(a[1..], b, sep);
      var s := a + [sep] + b;
      assert s[0] == a[0] && s[1..] == a[1..] + [sep] + b;
      assert [a[0]] + a[1..] == a;
    }
  }
}
