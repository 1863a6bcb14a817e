/**
 * The .NET string operations the core relies on, over `string == seq<char>`:
 * `Char.IsWhiteSpace`, `String.Trim`, `String.IsNullOrWhiteSpace`,
 * `ToLowerInvariant`, ordinal case-insensitive comparison, `Split(char)`,
 * `String.Join(char, ...)`, `Replace` of a one-character string and `Count`.
 */
module Text {
  import opened Wrappers

  /** `Char.IsWhiteSpace`: the Unicode space separators, line and paragraph separators,
      U+0009..U+000D, U+0085 and U+00A0. */
  predicate IsWhiteSpace(c: char) {
    c == ' ' || ('\t' <= c <= '\r') || c == '\U{85}' || c == '\U{A0}' || c == '\U{1680}'
    || ('\U{2000}' <= c <= '\U{200A}') || c == '\U{2028}' || c == '\U{2029}'
    || c == '\U{202F}' || c == '\U{205F}' || c == '\U{3000}'
  }

  /** `String.IsNullOrWhiteSpace` for a non-null string: empty or only white space. */
  predicate IsBlank(s: string) {
    forall i | 0 <= i < |s| :: IsWhiteSpace(s[i])
  }

  /** `String.TrimStart()`: drops the longest all-white-space prefix. */
  function TrimStart(s: string): string {
    if s != [] && IsWhiteSpace(s[0]) then TrimStart(s[1..]) else s
  }

  /** `TrimStart` keeps a suffix of the input, cuts only white space, and what it keeps
      does not start with white space. */
  lemma {:induction false} TrimStartFacts(s: string)
    ensures var r := TrimStart(s);
      && |r| <= |s| && r == s[|s| - |r|..]
      && IsBlank(s[..|s| - |r|])
      && (r == [] || !IsWhiteSpace(r[0]))
  {
    if s != [] && IsWhiteSpace(s[0]) {
      TrimStartFacts(s[1..]);
      var r := TrimStart(s);
      assert s[..|s| - |r|] == [s[0]] + s[1..][..|s| - 1 - |r|];
    }
  }

  /** `String.TrimEnd()`: drops the longest all-white-space suffix. */
  function TrimEnd(s: string): string {
    if s != [] && IsWhiteSpace(s[|s| - 1]) then TrimEnd(s[..|s| - 1]) else s
  }

  /** `TrimEnd` keeps a prefix of the input, cuts only white space, and what it keeps
      does not end with white space. */
  lemma {:induction false} TrimEndFacts(s: string)
    ensures var r := TrimEnd(s);
      && |r| <= |s| && r == s[..|r|]
      && IsBlank(s[|r|..])
      && (r == [] || !IsWhiteSpace(r[|r| - 1]))
  {
    if s != [] && IsWhiteSpace(s[|s| - 1]) {
      TrimEndFacts(s[..|s| - 1]);
      var r := TrimEnd(s);
      assert s[|r|..] == s[..|s| - 1][|r|..] + [s[|s| - 1]];
    }
  }

  /** `String.Trim()`. */
  function Trim(s: string): string {
    TrimEnd(TrimStart(s))
  }

  /** A string with no white space at either end. */
  predicate Trimmed(s: string) {
    s == [] || (!IsWhiteSpace(s[0]) && !IsWhiteSpace(s[|s| - 1]))
  }

  /** What `Trim` keeps is a contiguous part of the input with white space cut
      from both ends, and it neither starts nor ends with white space. */
  lemma TrimShape(s: string)
    ensures var r := Trim(s);
      exists i, j :: 0 <= i <= j <= |s| && r == s[i..j] && IsBlank(s[..i]) && IsBlank(s[j..])
    ensures Trimmed(Trim(s))
  {
    var t := TrimStart(s);
    var r := TrimEnd(t);
    TrimStartFacts(s);
    TrimEndFacts(t);
    var i := |s| - |t|;
    assert r == s[i..i + |r|];
    assert s[i + |r|..] == t[|r|..];
  }

  /** A string is blank exactly when trimming empties it. */
  lemma BlankIffTrimEmpty(s: string)
    ensures IsBlank(s) <==> Trim(s) == []
  {
    var t := TrimStart(s);
    TrimStartFacts(s);
    TrimEndFacts(t);
    if Trim(s) == [] {
      assert t[0..] == t;
      assert s == s[..|s| - |t|] + t;
    }
  }

  /** Trimming twice is trimming once. */
  lemma TrimIdempotent(s: string)
    ensures Trim(Trim(s)) == Trim(s)
  {
    TrimShape(s);
    var r := Trim(s);
    if r != [] {
      assert TrimStart(r) == r;
      assert TrimEnd(r) == r;
    }
  }

  /** A string that neither starts nor ends with white space is unchanged by `Trim`. */
  lemma TrimOfTrimmed(s: string)
    requires Trimmed(s)
    ensures Trim(s) == s
  {
  }

  /** `Char.ToLowerInvariant` on the ASCII range: 'A'..'Z' map to 'a'..'z'. */
  function LowerChar(c: char): (r: char)
    ensures 'A' <= c <= 'Z' ==> 'a' <= r <= 'z' && r as int == c as int + 32
    ensures !('A' <= c <= 'Z') ==> r == c
  {
    if 'A' <= c <= 'Z' then (c as int + 32) as char else c
  }

  /** `String.ToLowerInvariant`: maps every character by `LowerChar`. */
  function Lower(s: string): (r: string)
    ensures |r| == |s|
    ensures forall i | 0 <= i < |s| :: r[i] == LowerChar(s[i])
  {
    seq(|s|, i requires 0 <= i < |s| => LowerChar(s[i]))
  }

  /** Lowering is idempotent, does not touch white space and distributes over concatenation. */
  lemma LowerFacts(a: string, b: string)
    ensures Lower(Lower(a)) == Lower(a)
    ensures IsBlank(Lower(a)) <==> IsBlank(a)
    ensures Lower(a + b) == Lower(a) + Lower(b)
  {
    assert forall i | 0 <= i < |a| :: IsWhiteSpace(Lower(a)[i]) <==> IsWhiteSpace(a[i]);
  }

  /** `String.Equals(a, b, StringComparison.OrdinalIgnoreCase)`. */
  predicate EqualsIgnoreCase(a: string, b: string) {
    Lower(a) == Lower(b)
  }

  /** `s.StartsWith(p, StringComparison.OrdinalIgnoreCase)`. */
  predicate StartsWithIgnoreCase(s: string, p: string) {
    |p| <= |s| && EqualsIgnoreCase(s[..|p|], p)
  }

  /** Whether `p` occurs, ignoring case, at position `k` of `s`. */
  predicate MatchesAt(s: string, p: string, k: nat) {
    k + |p| <= |s| && EqualsIgnoreCase(s[k..k + |p|], p)
  }

  /** `s.IndexOf(p, k, StringComparison.OrdinalIgnoreCase)`: the first match at or after `k`. */
  function IndexOfIgnoreCase(s: string, p: string, k: nat := 0): (r: Option<nat>)
    ensures r.Some? ==> k <= r.value && MatchesAt(s, p, r.value)
    ensures r.Some? ==> forall j | k <= j < r.value :: !MatchesAt(s, p, j)
    ensures r.None? ==> forall j | k <= j :: !MatchesAt(s, p, j)
    decreases |s| - k
  {
    if k + |p| > |s| then None
    else if MatchesAt(s, p, k) then Some(k)
    else IndexOfIgnoreCase(s, p, k + 1)
  }

  /** The number of occurrences of `c` in `s` (LINQ `s.Count(ch => ch == c)`). */
  function Count(s: string, c: char): (n: nat)
    ensures n <= |s|
    ensures n > 0 <==> c in s
  {
    if s == [] then 0 else (if s[0] == c then 1 else 0) + Count(s[1..], c)
  }

  /** `Count` is the multiplicity of `c` in the multiset of the characters of `s`. */
  lemma {:induction false} CountIsMultiplicity(s: string, c: char)
    ensures Count(s, c) == multiset(s)[c]
  {
    if s != [] {
      CountIsMultiplicity(s[1..], c);
      assert s == [s[0]] + s[1..];
      assert multiset(s) == multiset([s[0]]) + multiset(s[1..]);
    }
  }

  /** `s.IndexOf(c)`: the position of the first occurrence of `c`. */
  function IndexOfChar(s: string, c: char): (r: Option<nat>)
    ensures r.Some? ==> r.value < |s| && s[r.value] == c && c !in s[..r.value]
    ensures r.None? <==> c !in s
  {
    if s == [] then None
    else if s[0] == c then Some(0)
    else match IndexOfChar(s[1..], c)
      case None => None
      case Some(k) => assert s[..k + 1] == [s[0]] + s[1..][..k]; Some(k + 1)
  }

  /** The string without its leading occurrences of `c` (`TrimStart(c)`). */
  function DropLeading(s: string, c: char): (r: string)
    ensures |r| <= |s| && r == s[|s| - |r|..]
    ensures forall i | 0 <= i < |s| - |r| :: s[i] == c
    ensures r == [] || r[0] != c
  {
    if s != [] && s[0] == c then DropLeading(s[1..], c) else s
  }

  /** `s.Split(c)`: the pieces between the occurrences of `c`, empty ones included. */
  function Split(s: string, c: char): (r: seq<string>)
    ensures |r| == Count(s, c) + 1
    ensures forall i | 0 <= i < |r| :: c !in r[i]
  {
    if s == [] then [""]
    else
      var rest := Split(s[1..], c);
      if s[0] == c then [""] + rest else [[s[0]] + rest[0]] + rest[1..]
  }

  /** `String.Join(sep, parts)`. */
  function Join(sep: char, parts: seq<string>): string {
    if |parts| == 0 then ""
    else if |parts| == 1 then parts[0]
    else parts[0] + [sep] + Join(sep, parts[1..])
  }

  /** Joining the pieces of a split gives back the string. */
  lemma {:induction false} JoinSplit(s: string, c: char)
    ensures Join(c, Split(s, c)) == s
  {
    if s != [] {
      var rest := Split(s[1..], c);
      JoinSplit(s[1..], c);
      if s[0] == c {
        calc {
          Join(c, Split(s, c));
        == { assert Split(s, c) == [""] + rest; assert ([""] + rest)[1..] == rest; }
          "" + [c] + Join(c, rest);
        == { assert s == [s[0]] + s[1..]; }
          s;
        }
      } else {
        calc {
          Join(c, Split(s, c));
        == { assert Split(s, c) == [[s[0]] + rest[0]] + rest[1..]; }
          Join(c, [[s[0]] + rest[0]] + rest[1..]);
        == { JoinGlue(c, s[0], rest); }
          [s[0]] + Join(c, rest);
        == { assert s == [s[0]] + s[1..]; }
          s;
        }
      }
    }
  }

  /** A character glued to the front of the first piece comes first in the join. */
  lemma JoinGlue(c: char, x: char, parts: seq<string>)
    requires |parts| >= 1
    ensures Join(c, [[x] + parts[0]] + parts[1..]) == [x] + Join(c, parts)
  {
    var glued := [[x] + parts[0]] + parts[1..];
    if |parts| > 1 {
      calc {
        Join(c, glued);
      == { assert glued[1..] == parts[1..]; }
        [x] + parts[0] + [c] + Join(c, parts[1..]);
      ==
        [x] + (parts[0] + [c] + Join(c, parts[1..]));
      }
    }
  }

  /** Joining two non-empty runs of pieces puts one separator between their joins. */
  lemma {:induction false} JoinAppend(c: char, a: seq<string>, b: seq<string>)
    requires |a| >= 1 && |b| >= 1
    ensures Join(c, a + b) == Join(c, a) + [c] + Join(c, b)
  {
    if |a| == 1 {
      assert (a + b)[1..] == b;
    } else {
      calc {
        Join(c, a + b);
      == { assert (a + b)[0] == a[0] && (a + b)[1..] == a[1..] + b; }
        a[0] + [c] + Join(c, a[1..] + b);
      == { JoinAppend(c, a[1..], b); }
        a[0] + [c] + (Join(c, a[1..]) + [c] + Join(c, b));
      ==
        Join(c, a) + [c] + Join(c, b);
      }
    }
  }

  /** Splitting a join of separator-free pieces gives back the pieces. */
  lemma {:induction false} SplitJoin(parts: seq<string>, c: char)
    requires |parts| >= 1
    requires forall i | 0 <= i < |parts| :: c !in parts[i]
    ensures Split(Join(c, parts), c) == parts
  {
    if |parts| == 1 {
      SplitFree(parts[0], c);
    } else {
      SplitJoin(parts[1..], c);
      SplitPrefix(parts[0], Join(c, parts[1..]), c);
    }
  }

  /** A string without the separator splits into itself. */
  lemma {:induction false} SplitFree(s: string, c: char)
    requires c !in s
    ensures Split(s, c) == [s]
  {
    if s != [] {
      SplitFree(s[1..], c);
      assert [s[0]] + s[1..] == s;
    }
  }

  /** Splitting `p + [c] + t` where `p` has no separator puts `p` first. */
  lemma {:induction false} SplitPrefix(p: string, t: string, c: char)
    requires c !in p
    ensures Split(p + [c] + t, c) == [p] + Split(t, c)
  {
    if p == [] {
      assert ([c] + t)[1..] == t;
    } else {
      var rest := Split(p[1..] + [c] + t, c);
      calc {
        Split(p + [c] + t, c);
      == { assert (p + [c] + t)[0] == p[0] && (p + [c] + t)[1..] == p[1..] + [c] + t; }
        [[p[0]] + rest[0]] + rest[1..];
      == { SplitPrefix(p[1..], t, c); assert rest == [p[1..]] + Split(t, c); }
        [[p[0]] + p[1..]] + Split(t, c);
      == { assert [p[0]] + p[1..] == p; }
        [p] + Split(t, c);
      }
    }
  }

  /** `s.Replace(c.ToString(), t)`: every occurrence of the character `c` becomes `t`. */
  function ReplaceChar(s: string, c: char, t: string): (r: string)
    ensures c !in t ==> c !in r
    ensures forall x | x in r :: x in s || x in t
  {
    if s == [] then [] else (if s[0] == c then t else [s[0]]) + ReplaceChar(s[1..], c, t)
  }

  /** Replacing distributes over concatenation. */
  lemma {:induction false} ReplaceCharAppend(a: string, b: string, c: char, t: string)
    ensures ReplaceChar(a + b, c, t) == ReplaceChar(a, c, t) + ReplaceChar(b, c, t)
  {
    if a == [] {
      assert a + b == b;
    } else {
      var head := if a[0] == c then t else [a[0]];
      calc {
        ReplaceChar(a + b, c, t);
      == { assert (a + b)[0] == a[0] && (a + b)[1..] == a[1..] + b; }
        head + ReplaceChar(a[1..] + b, c, t);
      == { ReplaceCharAppend(a[1..], b, c, t); }
        head + (ReplaceChar(a[1..], c, t) + ReplaceChar(b, c, t));
      ==
        ReplaceChar(a, c, t) + ReplaceChar(b, c, t);
      }
    }
  }

  /** Replacing a character that does not occur changes nothing. */
  lemma {:induction false} ReplaceCharAbsent(s: string, c: char, t: string)
    requires c !in s
    ensures ReplaceChar(s, c, t) == s
  {
    if s != [] {
      ReplaceCharAbsent(s[1..], c, t);
    }
  }
}
