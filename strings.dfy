/** The Python string operations the corpus code relies on, with the
    semantics of Python 2.7 unicode strings. */
module Strings {
  import opened Base

  /** `unicode.isspace()` for one character: the characters Python 2.7's
      `unicode.split()` and `unicode.strip()` treat as whitespace. */
  predicate IsSpace(c: char) {
    || ('\t' <= c <= '\r') || ('\U{1c}' <= c <= '\U{1f}') || c == ' '
    || c == '\U{85}' || c == '\U{a0}' || c == '\U{1680}' || c == '\U{180e}'
    || ('\U{2000}' <= c <= '\U{200a}') || c == '\U{2028}' || c == '\U{2029}'
    || c == '\U{202f}' || c == '\U{205f}' || c == '\U{3000}'
  }

  /** The regular expression class `\s` of a pattern compiled without
      `re.UNICODE`: `[ \t\n\r\f\v]`. */
  predicate IsRegexSpace(c: char) {
    c == ' ' || ('\t' <= c <= '\r')
  }

  /** `s` with every character satisfying `drop` deleted. */
  function Remove(s: string, drop: char -> bool): (r: string)
    ensures forall c :: c in r ==> c in s && !drop(c)
    ensures forall c :: c in s && !drop(c) ==> c in r
    ensures |r| <= |s|
  {
    if s == [] then []
    else if drop(s[0]) then Remove(s[1..], drop)
    else [s[0]] + Remove(s[1..], drop)
  }

  lemma {:induction false} RemoveNothing(s: string, drop: char -> bool)
    requires forall c :: c in s ==> !drop(c)
    ensures Remove(s, drop) == s
    decreases |s|
  {
    if s != [] {
      RemoveNothing(s[1..], drop);
      assert [s[0]] + s[1..] == s;
    }
  }

  /** `re.sub(r'\r\n?|\n', '', s)`: every match consumes only `\r` and `\n`
      characters and every such character belongs to a match, so the
      substitution deletes exactly the carriage returns and line feeds. */
  function RemoveLineBreaks(s: string): string {
    Remove(s, c => c == '\r' || c == '\n')
  }

  /** Concatenation of a sequence of strings. */
  function Concat(parts: seq<string>): string {
    if parts == [] then [] else parts[0] + Concat(parts[1..])
  }

  // ---------------------------------------------------------------- split()

  /** Python's `s.split()`: the maximal runs of non-whitespace characters. */
  function Tokens(s: string): seq<string> {
    TokensFrom(s, [])
  }

  /** `s.split()` when `pending` is the token being read. */
  function TokensFrom(s: string, pending: string): (r: seq<string>)
    decreases |s|
  {
    if s == [] then (if pending == [] then [] else [pending])
    else if IsSpace(s[0]) then (if pending == [] then [] else [pending]) + TokensFrom(s[1..], [])
    else TokensFrom(s[1..], pending + [s[0]])
  }

  /** A token is never empty and holds no whitespace. */
  predicate IsToken(t: string) {
    t != [] && forall c :: c in t ==> !IsSpace(c)
  }

  lemma {:induction false} TokensFromAreTokens(s: string, pending: string)
    requires forall c :: c in pending ==> !IsSpace(c)
    ensures forall t :: t in TokensFrom(s, pending) ==> IsToken(t)
    ensures Concat(TokensFrom(s, pending)) == pending + Remove(s, IsSpace)
    decreases |s|
  {
    if s == [] {
      assert Concat([pending]) == pending + Concat([]);
    } else if IsSpace(s[0]) {
      TokensFromAreTokens(s[1..], []);
      var rest := TokensFrom(s[1..], []);
      assert TokensFrom(s, pending) == (if pending == [] then [] else [pending]) + rest;
      if pending != [] {
        assert ([pending] + rest)[1..] == rest;
        assert Concat([pending] + rest) == pending + Concat(rest);
      } else {
        assert [] + rest == rest;
        assert pending + Remove(s, IsSpace) == Remove(s, IsSpace);
      }
      assert Remove(s, IsSpace) == Remove(s[1..], IsSpace);
      assert Concat(rest) == Remove(s[1..], IsSpace);
    } else {
      TokensFromAreTokens(s[1..], pending + [s[0]]);
    }
  }

  /** The tokens of `split()` are non-empty and whitespace-free, and together
      they are `s` with its whitespace deleted. */
  lemma TokensSpec(s: string)
    ensures forall t :: t in Tokens(s) ==> IsToken(t)
    ensures Concat(Tokens(s)) == Remove(s, IsSpace)
  {
    TokensFromAreTokens(s, []);
  }

  // ------------------------------------------------------- split(sep), join

  /** `sep` occurs in `s` at index `i`. */
  predicate OccursAt(s: string, sep: string, i: nat) {
    i + |sep| <= |s| && s[i..i + |sep|] == sep
  }

  /** `s.find(sep)`: the first index where `sep` occurs. */
  function Find(s: string, sep: string): (r: Option<nat>)
    requires |sep| > 0
    ensures r.Some? ==> OccursAt(s, sep, r.value)
    ensures r.Some? ==> forall j: nat :: j < r.value ==> !OccursAt(s, sep, j)
    ensures r.None? ==> forall j: nat :: !OccursAt(s, sep, j)
  {
    FindFrom(s, sep, 0)
  }

  /** `s.find(sep, k)`. */
  function FindFrom(s: string, sep: string, k: nat): (r: Option<nat>)
    requires |sep| > 0
    ensures r.Some? ==> k <= r.value && OccursAt(s, sep, r.value)
    ensures r.Some? ==> forall j: nat :: k <= j < r.value ==> !OccursAt(s, sep, j)
    ensures r.None? ==> forall j: nat :: k <= j ==> !OccursAt(s, sep, j)
    decreases |s| - k
  {
    if k + |sep| > |s| then None
    else if OccursAt(s, sep, k) then Some(k)
    else FindFrom(s, sep, k + 1)
  }

  /** Python's `s.split(sep)` for a non-empty separator. */
  function Split(s: string, sep: string): (r: seq<string>)
    requires |sep| > 0
    ensures |r| >= 1
    decreases |s|
  {
    match Find(s, sep)
    case None => [s]
    case Some(i) => [s[..i]] + Split(s[i + |sep|..], sep)
  }

  /** Python's `sep.join(parts)`. */
  function Join(parts: seq<string>, sep: string): string {
    if parts == [] then []
    else if |parts| == 1 then parts[0]
    else parts[0] + sep + Join(parts[1..], sep)
  }

  /** Joining the pieces of a split with the same separator gives back the
      string. */
  lemma {:induction false} JoinSplit(s: string, sep: string)
    requires |sep| > 0
    ensures Join(Split(s, sep), sep) == s
    decreases |s|
  {
    var f := Find(s, sep);
    if f.Some? {
      var i := f.value;
      var rest := s[i + |sep|..];
      JoinSplit(rest, sep);
      SplitUnfold(s, sep, i);
      JoinCons(s[..i], Split(rest, sep), sep);
      assert s == s[..i] + s[i..i + |sep|] + rest;
    }
  }

  lemma SplitUnfold(s: string, sep: string, i: nat)
    requires |sep| > 0 && Find(s, sep) == Some(i)
    ensures Split(s, sep) == [s[..i]] + Split(s[i + |sep|..], sep)
  {
  }

  lemma JoinCons(head: string, tail: seq<string>, sep: string)
    requires |tail| >= 1
    ensures Join([head] + tail, sep) == head + sep + Join(tail, sep)
  {
    assert ([head] + tail)[1..] == tail;
  }

  /** No piece of a split contains the separator. */
  lemma {:induction false} SplitPiecesFree(s: string, sep: string)
    requires |sep| > 0
    ensures forall p :: p in Split(s, sep) ==> Find(p, sep).None?
    decreases |s|
  {
    match Find(s, sep)
    case None =>
    case Some(i) =>
      SplitPiecesFree(s[i + |sep|..], sep);
      var head := s[..i];
      forall j: nat ensures !OccursAt(head, sep, j) {
        if OccursAt(head, sep, j) {
          assert head[j..j + |sep|] == s[j..j + |sep|];
          assert OccursAt(s, sep, j);
        }
      }
  }

  /** A string in which the separator occurs at `i` splits into at least two
      pieces, the first of which is `s[..i']` for the first occurrence `i'`. */
  lemma SplitFound(s: string, sep: string, i: nat)
    requires |sep| > 0 && OccursAt(s, sep, i)
    ensures |Split(s, sep)| >= 2
  {
  }

  /** A one-character separator that does not occur leaves one piece. */
  lemma SplitAbsentChar(s: string, c: char)
    requires c !in s
    ensures Split(s, [c]) == [s]
  {
    forall j: nat | j < |s| ensures !OccursAt(s, [c], j) {
      assert s[j..j + 1][0] == s[j] && s[j] in s;
    }
    assert Find(s, [c]) == None;
  }

  /** Two pieces free of the separator character, joined by it, split back
      into those pieces. */
  lemma SplitTwo(a: string, b: string, c: char)
    requires c !in a && c !in b
    ensures Split(a + [c] + b, [c]) == [a, b]
  {
    var s := a + [c] + b;
    forall j: nat | j < |a| ensures !OccursAt(s, [c], j) {
      assert s[j..j + 1][0] == s[j] == a[j] && a[j] in a;
    }
    assert s[|a|..|a| + 1] == [c];
    assert OccursAt(s, [c], |a|);
    assert Find(s, [c]) == Some(|a|);
    SplitUnfold(s, [c], |a|);
    assert s[..|a|] == a && s[|a| + 1..] == b;
    SplitAbsentChar(b, c);
  }

  /** Python's `s.replace(pat, repl)` for a non-empty `pat`: every
      non-overlapping occurrence, scanning from the left, is replaced. */
  function Replace(s: string, pat: string, repl: string): string
    requires |pat| > 0
  {
    Join(Split(s, pat), repl)
  }

  /** Replacing the one occurrence of `pat` that ends the string. */
  lemma ReplaceSuffix(stem: string, pat: string, repl: string)
    requires |pat| > 0
    requires forall j: nat :: j < |stem| ==> !OccursAt(stem + pat, pat, j)
    ensures Replace(stem + pat, pat, repl) == stem + repl
  {
    var s := stem + pat;
    assert OccursAt(s, pat, |stem|) by { assert s[|stem|..|stem| + |pat|] == pat; }
    assert Find(s, pat) == Some(|stem|);
    assert s[..|stem|] == stem;
    assert s[|stem| + |pat|..] == [];
    assert Find([], pat) == None;
    assert Split([], pat) == [[]];
    assert Split(s, pat) == [stem, []];
    assert Join([stem, []], repl) == stem + repl + Join([[]], repl);
  }

  /** Replacing something that does not occur leaves the string alone. */
  lemma ReplaceAbsent(s: string, pat: string, repl: string)
    requires |pat| > 0 && Find(s, pat).None?
    ensures Replace(s, pat, repl) == s
  {
  }

  // ------------------------------------------------------ slicing and paths

  /** Python's `s[:n]` for `n >= 0`. */
  function Prefix(s: string, n: nat): (r: string)
    ensures |r| == if n <= |s| then n else |s|
    ensures r <= s
  {
    if n <= |s| then s[..n] else s
  }

  /** Python's `s[:-n]` for `n > 0`. */
  function DropLast(s: string, n: nat): (r: string)
    ensures |r| == if n <= |s| then |s| - n else 0
    ensures r <= s
  {
    if n <= |s| then s[..|s| - n] else []
  }

  /** Python's `s.startswith(p)`. */
  predicate StartsWith(s: string, p: string) {
    p <= s
  }

  /** Python's `sub in s`. */
  predicate Contains(s: string, sub: string) {
    exists i: nat | i <= |s| :: OccursAt(s, sub, i)
  }

  /** `os.path.basename(p)`: what follows the last `/`. */
  function Basename(p: string): (r: string)
    ensures '/' !in r
    ensures |r| <= |p| && p[|p| - |r|..] == r
    ensures |r| < |p| ==> p[|p| - |r| - 1] == '/'
  {
    if p == [] then []
    else if p[|p| - 1] == '/' then []
    else Basename(p[..|p| - 1]) + [p[|p| - 1]]
  }

  lemma {:induction false} BasenameOfJoin(dir: string, name: string)
    requires '/' !in name
    ensures Basename(dir + "/" + name) == name
    decreases |name|
  {
    var p := dir + "/" + name;
    if name == [] {
    } else {
      assert p[..|p| - 1] == dir + "/" + name[..|name| - 1];
      BasenameOfJoin(dir, name[..|name| - 1]);
      assert name == name[..|name| - 1] + [name[|name| - 1]];
    }
  }

  /** `unicode.strip()`: leading and trailing whitespace removed. */
  function Strip(s: string): (r: string)
    ensures r == [] || (!IsSpace(r[0]) && !IsSpace(r[|r| - 1]))
    ensures exists i, j :: 0 <= i <= j <= |s| && r == s[i..j]
  {
    var left := StripLeft(s);
    var r := StripRight(left);
    assert r == s[|s| - |left|..|s| - |left| + |r|];
    r
  }

  function StripLeft(s: string): (r: string)
    ensures r == [] || !IsSpace(r[0])
    ensures |r| <= |s| && r == s[|s| - |r|..]
  {
    if s != [] && IsSpace(s[0]) then StripLeft(s[1..]) else s
  }

  function StripRight(s: string): (r: string)
    ensures r == [] || !IsSpace(r[|r| - 1])
    ensures r <= s
  {
    if s != [] && IsSpace(s[|s| - 1]) then StripRight(s[..|s| - 1]) else s
  }

  /** A character of a join comes from one of the parts or from the
      separator. */
  lemma {:induction false} JoinChars(parts: seq<string>, sep: string, c: char)
    requires c in Join(parts, sep)
    ensures c in sep || exists i :: 0 <= i < |parts| && c in parts[i]
    decreases |parts|
  {
    if |parts| > 1 {
      var rest := Join(parts[1..], sep);
      if c in rest {
        JoinChars(parts[1..], sep, c);
        if c !in sep {
          var i :| 0 <= i < |parts[1..]| && c in parts[1..][i];
          assert c in parts[i + 1];
        }
      } else if c !in sep {
        assert c in parts[0];
      }
    } else if |parts| == 1 {
      assert c in parts[0];
    }
  }
}

