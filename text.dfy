/**
 * The string operations of Rust's standard library that the program relies on
 * (`trim`, `starts_with`, `contains`, `find`, `rfind`, `replace`, `lines`,
 * `join`, `trim_start_matches`, `trim_end_matches`, `take_while`, `to_string`
 * on integers, `to_lowercase`), defined on `seq<char>` with one element per
 * byte of the source's UTF-8 strings: a non-ASCII character is the sequence
 * of its UTF-8 bytes, each an element below 256.
 */
module Text {
  import opened Common

  /**
   * Rust's `char::is_whitespace` on the one-byte characters: space and the
   * controls from tab to carriage return. The bytes of a multi-byte UTF-8
   * character are never whitespace here.
   */
  predicate IsWhitespace(c: char) {
    c == ' ' || ('\t' <= c <= '\r')
  }

  /** Every character of `t` is whitespace. */
  predicate AllWhitespace(t: string) {
    forall k :: 0 <= k < |t| ==> IsWhitespace(t[k])
  }

  /** `str::trim_start`: drop the leading whitespace. */
  function TrimStart(s: string): (r: string)
    ensures |r| <= |s| && r == s[|s| - |r|..]
    ensures forall k :: 0 <= k < |s| - |r| ==> IsWhitespace(s[k])
    ensures r == [] || !IsWhitespace(r[0])
    decreases |s|
  {
    if |s| > 0 && IsWhitespace(s[0]) then TrimStart(s[1..]) else s
  }

  /** `str::trim_end`: drop the trailing whitespace. */
  function TrimEnd(s: string): (r: string)
    ensures |r| <= |s| && r == s[..|r|]
    ensures forall k :: |r| <= k < |s| ==> IsWhitespace(s[k])
    ensures r == [] || !IsWhitespace(r[|r| - 1])
    decreases |s|
  {
    if |s| > 0 && IsWhitespace(s[|s| - 1]) then TrimEnd(s[..|s| - 1]) else s
  }

  /** A string with no whitespace at either end. */
  predicate Trimmed(t: string) {
    t == [] || (!IsWhitespace(t[0]) && !IsWhitespace(t[|t| - 1]))
  }

  /** `str::trim`: `s` without the whitespace at its start and at its end. */
  function Trim(s: string): (r: string)
    ensures Trimmed(r)
    ensures |r| <= |s|
  {
    var t := TrimStart(s);
    var r := TrimEnd(t);
    assert r != [] ==> r[0] == t[0];
    r
  }

  /** What `Trim` keeps is a slice of `s` with only whitespace before and after it. */
  lemma TrimIsSlice(s: string)
    ensures var r := Trim(s);
      exists i :: 0 <= i <= |s| - |r| && r == s[i..i + |r|] && AllWhitespace(s[..i]) && AllWhitespace(s[i + |r|..])
  {
    WhitespaceAround(s, TrimStart(s), Trim(s));
  }

  /** `r` is `s` with a whitespace run cut from its start (giving `t`), then one cut from the end. */
  lemma WhitespaceAround(s: string, t: string, r: string)
    requires |t| <= |s| && t == s[|s| - |t|..] && forall k :: 0 <= k < |s| - |t| ==> IsWhitespace(s[k])
    requires |r| <= |t| && r == t[..|r|] && forall k :: |r| <= k < |t| ==> IsWhitespace(t[k])
    ensures exists j :: 0 <= j <= |s| - |r| && r == s[j..j + |r|] && AllWhitespace(s[..j]) && AllWhitespace(s[j + |r|..])
  {
    var i := |s| - |t|;
    var head, tail := s[..i], s[i + |r|..];
    assert r == s[i..i + |r|];
    assert AllWhitespace(head) by {
      forall k | 0 <= k < |head| ensures IsWhitespace(head[k]) {
        assert head[k] == s[k];
      }
    }
    assert AllWhitespace(tail) by {
      forall k | 0 <= k < |tail| ensures IsWhitespace(tail[k]) {
        assert tail[k] == t[|r| + k];
      }
    }
  }

  /**
   * The other direction: a text made of whitespace, a trimmed core and more
   * whitespace trims to exactly that core.
   */
  lemma TrimExactly(a: string, core: string, b: string)
    requires AllWhitespace(a) && Trimmed(core) && AllWhitespace(b)
    ensures Trim(a + core + b) == core
  {
    if core == [] {
      var ab := a + core + b;
      assert AllWhitespace(ab) by {
        forall k | 0 <= k < |ab| ensures IsWhitespace(ab[k]) {
          if k < |a| { assert ab[k] == a[k]; } else { assert ab[k] == b[k - |a|]; }
        }
      }
      TrimStartExactly(ab, []);
      assert ab + [] == ab;
    } else {
      assert a + core + b == a + (core + b);
      TrimStartExactly(a, core + b);
      TrimEndExactly(core, b);
    }
  }

  /** Whitespace followed by a text that does not start with whitespace loses exactly the whitespace. */
  lemma {:induction false} TrimStartExactly(a: string, t: string)
    requires AllWhitespace(a) && (t == [] || !IsWhitespace(t[0]))
    ensures TrimStart(a + t) == t
    decreases |a|
  {
    if a == [] {
      assert a + t == t;
    } else {
      assert (a + t)[1..] == a[1..] + t;
      assert AllWhitespace(a[1..]) by {
        forall k | 0 <= k < |a[1..]| ensures IsWhitespace(a[1..][k]) {
          assert a[1..][k] == a[k + 1];
        }
      }
      TrimStartExactly(a[1..], t);
    }
  }

  /** A text that does not end with whitespace, followed by whitespace, loses exactly the whitespace. */
  lemma {:induction false} TrimEndExactly(t: string, b: string)
    requires AllWhitespace(b) && (t == [] || !IsWhitespace(t[|t| - 1]))
    ensures TrimEnd(t + b) == t
    decreases |b|
  {
    if b == [] {
      assert t + b == t;
    } else {
      var s := t + b;
      assert s[..|s| - 1] == t + b[..|b| - 1];
      assert s[|s| - 1] == b[|b| - 1];
      var b' := b[..|b| - 1];
      assert AllWhitespace(b') by {
        forall k | 0 <= k < |b'| ensures IsWhitespace(b'[k]) {
          assert b'[k] == b[k];
        }
      }
      TrimEndExactly(t, b[..|b| - 1]);
    }
  }

  /** Trimming leaves nothing exactly when every character is whitespace. */
  lemma TrimEmpty(s: string)
    ensures Trim(s) == [] <==> forall k :: 0 <= k < |s| ==> IsWhitespace(s[k])
  {
    var t := TrimStart(s);
    assert Trim(s) == TrimEnd(t);
    if t != [] {
      assert TrimEnd(t) != [];
    }
  }

  /** Trimming a trimmed string changes nothing, so `trim` is idempotent. */
  lemma TrimOfTrimmed(t: string)
    requires Trimmed(t)
    ensures Trim(t) == t
  {
    assert TrimStart(t) == t;
    assert TrimEnd(t) == t;
  }

  lemma TrimIdempotent(s: string)
    ensures Trim(Trim(s)) == Trim(s)
  {
    TrimOfTrimmed(Trim(s));
  }

  predicate StartsWith(s: string, prefix: string) {
    |prefix| <= |s| && s[..|prefix|] == prefix
  }

  predicate EndsWith(s: string, suffix: string) {
    |suffix| <= |s| && s[|s| - |suffix|..] == suffix
  }

  /** `pat` occurs in `s` at position `k`. */
  predicate OccursAt(s: string, pat: string, k: nat) {
    k + |pat| <= |s| && s[k..k + |pat|] == pat
  }

  /** `str::contains` with a string pattern. */
  predicate Contains(s: string, pat: string) {
    exists k: nat | k <= |s| :: OccursAt(s, pat, k)
  }

  lemma OccursAtChars(s: string, pat: string, k: nat, j: nat)
    requires OccursAt(s, pat, k) && j < |pat|
    ensures s[k + j] == pat[j]
  {
    assert s[k..k + |pat|][j] == pat[j];
  }

  /** A pattern does not occur where one of its characters disagrees with the text. */
  lemma MismatchNotOccursAt(s: string, pat: string, k: nat, j: nat)
    requires j < |pat| && k + j < |s| && s[k + j] != pat[j]
    ensures !OccursAt(s, pat, k)
  {
    if k + |pat| <= |s| {
      assert s[k..k + |pat|][j] != pat[j];
    }
  }

  /** An occurrence in a part of `s` is an occurrence in `s`. */
  lemma OccursInSlice(s: string, lo: nat, hi: nat, pat: string, k: nat)
    requires lo <= hi <= |s| && OccursAt(s[lo..hi], pat, k)
    ensures OccursAt(s, pat, lo + k)
  {
    var u := s[lo..hi][k..k + |pat|];
    var v := s[lo + k..lo + k + |pat|];
    forall j | 0 <= j < |pat| ensures u[j] == v[j] {
    }
  }

  lemma ContainsConcat(a: string, b: string, c: string, pat: string)
    requires Contains(b, pat)
    ensures Contains(a + b + c, pat)
  {
    var k: nat :| OccursAt(b, pat, k);
    var s := a + b + c;
    assert s[|a|..|a| + |b|] == b;
    OccursInSlice(s, |a|, |a| + |b|, pat, k);
  }

  /** `str::find` with a string pattern: the first occurrence. */
  function IndexOf(s: string, pat: string): (r: Option<nat>)
    ensures r.Some? ==> OccursAt(s, pat, r.value)
    ensures r.Some? ==> forall k: nat :: k < r.value ==> !OccursAt(s, pat, k)
    ensures r.None? ==> !Contains(s, pat)
    decreases |s|
  {
    if |s| < |pat| then None
    else if s[..|pat|] == pat then Some(0)
    else
      var sub := IndexOf(s[1..], pat);
      assert forall k: nat :: 0 < k && OccursAt(s, pat, k) ==> OccursAt(s[1..], pat, k - 1) by {
        forall k: nat | 0 < k && OccursAt(s, pat, k) ensures OccursAt(s[1..], pat, k - 1) {
          assert s[1..][k - 1..k - 1 + |pat|] == s[k..k + |pat|];
        }
      }
      if sub.None? then None
      else
        assert s[1..] == s[1..|s|];
        OccursInSlice(s, 1, |s|, pat, sub.value);
        Some(sub.value + 1)
  }

  /** `str::find` with a character pattern. */
  function FindChar(s: string, c: char): (r: Option<nat>)
    ensures r.Some? ==> r.value < |s| && s[r.value] == c
    ensures r.None? <==> c !in s
    decreases |s|
  {
    if s == [] then None
    else if s[0] == c then Some(0)
    else
      var sub := FindChar(s[1..], c);
      if sub.None? then None else Some(sub.value + 1)
  }

  /** `FindChar` finds the first occurrence: no `c` comes before it. */
  lemma {:induction false} FindCharFirst(s: string, c: char)
    ensures FindChar(s, c).Some? ==> forall k :: 0 <= k < FindChar(s, c).value ==> s[k] != c
    decreases |s|
  {
    if s != [] && s[0] != c {
      FindCharFirst(s[1..], c);
      assert forall k :: 1 <= k < |s| ==> s[k] == s[1..][k - 1];
    }
  }

  /** `str::rfind` with a character pattern. */
  function RFindChar(s: string, c: char): (r: Option<nat>)
    ensures r.Some? ==> r.value < |s| && s[r.value] == c
    ensures r.Some? ==> forall k :: r.value < k < |s| ==> s[k] != c
    ensures r.None? <==> c !in s
    decreases |s|
  {
    if s == [] then None
    else if s[|s| - 1] == c then Some(|s| - 1)
    else RFindChar(s[..|s| - 1], c)
  }

  /** `str::replace` with an empty pattern: `rep` before every character and at the end. */
  function ReplaceEmpty(s: string, rep: string): string {
    if s == [] then rep else rep + [s[0]] + ReplaceEmpty(s[1..], rep)
  }

  /**
   * `q` and `rep` cannot overlap when glued: the replacement's first
   * character is not in `q`, and `q`'s first character is not in the
   * replacement.
   */
  predicate Separate(q: string, rep: string) {
    q != [] && rep != [] && rep[0] !in q && q[0] !in rep
  }

  /**
   * `str::replace`: the text scanned left to right, each occurrence of the
   * pattern replaced and scanning resumed after it, so that occurrences
   * do not overlap.
   */
  function Replace(s: string, pat: string, rep: string): string
    decreases |s|
  {
    if pat == [] then ReplaceEmpty(s, rep)
    else if |s| < |pat| then s
    else if s[..|pat|] == pat then rep + Replace(s[|pat|..], pat, rep)
    else [s[0]] + Replace(s[1..], pat, rep)
  }

  /** A text without the pattern is kept as it is. */
  lemma ReplaceAbsent(s: string, pat: string, rep: string)
    ensures pat != [] && !Contains(s, pat) ==> Replace(s, pat, rep) == s
  {
    if pat != [] && !Contains(s, pat) {
      assert s + [] == s;
      ReplaceSkip(s, [], pat, rep);
    }
  }

  /**
   * At the first occurrence of the pattern, the text before it is kept, the
   * occurrence becomes the replacement, and replacing goes on after it.
   */
  lemma {:induction false} ReplaceAt(s: string, pat: string, rep: string, i: nat)
    requires pat != [] && OccursAt(s, pat, i)
    requires forall k: nat :: k < i ==> !OccursAt(s, pat, k)
    ensures Replace(s, pat, rep) == s[..i] + rep + Replace(s[i + |pat|..], pat, rep)
  {
    var m, rest, after := s[..i], s[i..], s[i + |pat|..];
    assert s == m + rest && rest == pat + after;
    ReplaceSkip(m, rest, pat, rep);
    ReplaceHere(pat, after, rep);
  }

  /**
   * After replacing, no occurrence of a text `q` separate from the
   * replacement is left, when `q` is the pattern itself or does not occur
   * in `s`.
   */
  lemma {:induction false} ReplaceRemoves(s: string, pat: string, rep: string, q: string)
    requires pat != [] && Separate(q, rep) && (q == pat || !Contains(s, q))
    ensures !Contains(Replace(s, pat, rep), q)
    decreases |s|
  {
    if IndexOf(s, pat).Some? {
      var i := IndexOf(s, pat).value;
      var tail := s[i + |pat|..];
      ReplaceAt(s, pat, rep, i);
      if q != pat {
        NotInSuffix(s, i + |pat|, q);
      }
      ReplaceRemoves(tail, pat, rep, q);
      NotInPrefix(s, i, q, q == pat);
      NoOccurrenceAcross(s[..i], rep, Replace(tail, pat, rep), q);
    } else {
      ReplaceAbsent(s, pat, rep);
    }
  }

  /**
   * Gluing two texts free of `q` around a replacement leaves no `q`, when the
   * replacement and `q` cannot overlap: no occurrence may contain the
   * replacement's first character, nor start inside the replacement.
   */
  lemma NoOccurrenceAcross(left: string, rep: string, right: string, q: string)
    requires rep != [] && q != [] && rep[0] !in q && q[0] !in rep
    requires !Contains(left, q) && !Contains(right, q)
    ensures !Contains(left + rep + right, q)
  {
    var r := left + rep + right;
    forall k: nat | k <= |r| ensures !OccursAt(r, q, k) {
      if k + |q| <= |r| {
        var w := r[k..k + |q|];
        if k + |q| <= |left| {
          assert w == left[k..k + |q|];
          assert !OccursAt(left, q, k);
        } else if k < |left| {
          assert w[|left| - k] == rep[0];
          assert w[|left| - k] != q[|left| - k];
        } else if k < |left| + |rep| {
          assert w[0] == rep[k - |left|];
          assert w[0] != q[0];
        } else {
          var k' := k - |left| - |rep|;
          assert w == right[k'..k' + |q|];
          assert !OccursAt(right, q, k');
        }
      }
    }
  }

  /** A suffix of a text free of `q` is free of `q`. */
  lemma NotInSuffix(s: string, lo: nat, q: string)
    requires lo <= |s| && !Contains(s, q)
    ensures !Contains(s[lo..], q)
  {
    assert s[lo..] == s[lo..|s|];
    if Contains(s[lo..], q) {
      var k: nat :| k <= |s[lo..]| && OccursAt(s[lo..], q, k);
      OccursInSlice(s, lo, |s|, q, k);
    }
  }

  /**
   * The text before index `i` is free of `q` when `q` occurs nowhere in `s`
   * or, in the case `first`, nowhere before `i`.
   */
  lemma NotInPrefix(s: string, i: nat, q: string, first: bool)
    requires i <= |s| && q != []
    requires first ==> forall k: nat :: k < i ==> !OccursAt(s, q, k)
    requires !first ==> !Contains(s, q)
    ensures !Contains(s[..i], q)
  {
    forall k: nat | k <= i ensures !OccursAt(s[..i], q, k) {
      if k + |q| <= i {
        assert s[..i][k..k + |q|] == s[k..k + |q|];
        assert k < i && k <= |s|;
        assert !OccursAt(s, q, k);
      }
    }
  }

  /**
   * `Replace` keeps a leading part in which no occurrence of the pattern
   * starts, and goes on with the rest.
   */
  lemma {:induction false} ReplaceSkip(m: string, rest: string, pat: string, rep: string)
    requires pat != []
    requires forall k: nat :: k < |m| ==> !OccursAt(m + rest, pat, k)
    ensures Replace(m + rest, pat, rep) == m + Replace(rest, pat, rep)
    decreases |m|
  {
    if m != [] {
      var c, m' := m[0], m[1..];
      var t := m' + rest;
      ConsSplit(m, rest);
      ReplaceSkipOne(c, t, pat, rep);
      NoneAfterFirst(m, rest, pat);
      ReplaceSkip(m', rest, pat, rep);
      AppendAssoc([c], m', Replace(rest, pat, rep));
    } else {
      assert m + rest == rest;
    }
  }

  lemma ConsSplit(m: string, rest: string)
    requires m != []
    ensures m == [m[0]] + m[1..] && m + rest == [m[0]] + (m[1..] + rest)
  {
  }

  /** With no occurrence at the first `|m|` places of `m + rest`, none is at the first `|m| - 1` places after the first character. */
  lemma NoneAfterFirst(m: string, rest: string, pat: string)
    requires m != [] && forall k: nat :: k < |m| ==> !OccursAt(m + rest, pat, k)
    ensures forall k: nat :: k < |m| - 1 ==> !OccursAt(m[1..] + rest, pat, k)
  {
    var t := m[1..] + rest;
    assert m + rest == [m[0]] + t;
    forall k: nat | k < |m| - 1 ensures !OccursAt(t, pat, k) {
      if OccursAt(t, pat, k) {
        ShiftOccurrence([m[0]], t, pat, k);
      }
    }
  }

  /** `Replace` keeps a first character at which no occurrence starts. */
  lemma {:induction false} ReplaceSkipOne(c: char, rest: string, pat: string, rep: string)
    requires pat != [] && !OccursAt([c] + rest, pat, 0)
    ensures Replace([c] + rest, pat, rep) == [c] + Replace(rest, pat, rep)
  {
    var s := [c] + rest;
    assert s[1..] == rest;
    if |s| < |pat| {
      assert Replace(rest, pat, rep) == rest;
    }
  }

  /** An occurrence past the first part of a concatenation is one in the second part. */
  lemma {:induction false} UnshiftOccurrence(m: string, rest: string, pat: string, j: nat)
    requires OccursAt(m + rest, pat, |m| + j)
    ensures OccursAt(rest, pat, j)
  {
    assert (m + rest)[|m| + j..|m| + j + |pat|] == rest[j..j + |pat|];
  }

  /** An occurrence in the second part of a concatenation is one in the whole. */
  lemma {:induction false} ShiftOccurrence(m: string, rest: string, pat: string, j: nat)
    requires OccursAt(rest, pat, j)
    ensures OccursAt(m + rest, pat, |m| + j)
  {
    assert (m + rest)[|m| + j..|m| + j + |pat|] == rest[j..j + |pat|];
  }

  /** An occurrence at the very start is replaced, and replacing goes on after it. */
  lemma {:induction false} ReplaceHere(pat: string, rest: string, rep: string)
    requires pat != []
    ensures Replace(pat + rest, pat, rep) == rep + Replace(rest, pat, rep)
  {
    var s := pat + rest;
    assert s[..|pat|] == pat && s[|pat|..] == rest;
  }

  /** `str::lines` strips one `\r` before each `\n`. */
  function StripCR(line: string): string {
    if |line| > 0 && line[|line| - 1] == '\r' then line[..|line| - 1] else line
  }

  /**
   * `str::lines`: split at `\n` (and `\r\n`); a final line ending is optional,
   * so a string that ends with `\n` has no empty last line.
   */
  function Lines(s: string): (ls: seq<string>)
    ensures s == [] <==> ls == []
    decreases |s|
  {
    var found := FindChar(s, '\n');
    if found.None? then (if s == [] then [] else [s])
    else [StripCR(s[..found.value])] + Lines(s[found.value + 1..])
  }

  /** Splitting a text that ends with a line ending is splitting its two parts. */
  lemma {:induction false} LinesAppend(x: string, y: string)
    requires x == [] || x[|x| - 1] == '\n'
    ensures Lines(x + y) == Lines(x) + Lines(y)
    decreases |x|
  {
    if x == [] {
      assert x + y == y;
    } else {
      assert x[|x| - 1] in x;
      var i := FindChar(x, '\n').value;
      FindCharFirst(x, '\n');
      var line, x' := x[..i], x[i + 1..];
      assert '\n' !in line;
      assert x == line + "\n" + x';
      assert x + y == line + "\n" + (x' + y);
      assert x' == [] || x'[|x'| - 1] == '\n';
      LinesCons(line, x');
      LinesCons(line, x' + y);
      LinesAppend(x', y);
      AppendAssoc([StripCR(line)], Lines(x'), Lines(y));
    }
  }

  lemma AppendAssoc<T>(a: seq<T>, b: seq<T>, c: seq<T>)
    ensures a + (b + c) == a + b + c
  {
  }

  /** `FindChar` gives the index of a `c` with none before it. */
  lemma {:induction false} FindCharAt(s: string, c: char, i: nat)
    requires i < |s| && s[i] == c && forall k :: 0 <= k < i ==> s[k] != c
    ensures FindChar(s, c) == Some(i)
    decreases i
  {
    if i > 0 {
      assert forall k :: 0 <= k < i - 1 ==> s[1..][k] == s[k + 1];
      FindCharAt(s[1..], c, i - 1);
    }
  }

  /** A line, its line ending and the rest split into that line and the rest's lines. */
  lemma LinesCons(line: string, rest: string)
    requires '\n' !in line
    ensures Lines(line + "\n" + rest) == [StripCR(line)] + Lines(rest)
  {
    var s := line + "\n" + rest;
    assert s[|line|] == '\n';
    assert forall k :: 0 <= k < |line| ==> s[k] == line[k];
    FindCharAt(s, '\n', |line|);
    assert s[..|line|] == line;
    assert s[|line| + 1..] == rest;
  }

  /** A single line with its line ending splits into just that line. */
  lemma LinesOfLine(line: string)
    requires '\n' !in line
    ensures Lines(line + "\n") == [StripCR(line)]
  {
    LinesCons(line, []);
    assert line + "\n" + [] == line + "\n";
  }

  /** `[String]::join(sep)`. */
  function Join(parts: seq<string>, sep: string): (r: string)
    ensures parts == [] ==> r == []
    ensures |parts| == 1 ==> r == parts[0]
  {
    if parts == [] then []
    else if |parts| == 1 then parts[0]
    else parts[0] + sep + Join(parts[1..], sep)
  }

  /** Joining one more part puts the separator and that part at the end. */
  lemma {:induction false} JoinSnoc(parts: seq<string>, p: string, sep: string)
    requires parts != []
    ensures Join(parts + [p], sep) == Join(parts, sep) + sep + p
    decreases |parts|
  {
    if |parts| > 1 {
      assert (parts + [p])[1..] == parts[1..] + [p];
      JoinSnoc(parts[1..], p, sep);
    }
  }

  /**
   * Joining lines with `\n` and splitting the result with `str::lines` gives
   * the lines back, when no line holds a line ending nor ends with `\r`, and
   * the last one is not empty.
   */
  lemma {:induction false} LinesOfJoin(parts: seq<string>)
    requires forall k :: 0 <= k < |parts| ==> '\n' !in parts[k] && (parts[k] == [] || parts[k][|parts[k]| - 1] != '\r')
    requires parts != [] ==> parts[|parts| - 1] != []
    ensures Lines(Join(parts, "\n")) == parts
    decreases |parts|
  {
    if |parts| == 1 {
      var t := parts[0];
      assert FindChar(t, '\n').None?;
    } else if |parts| > 1 {
      var t := parts[0];
      LinesCons(t, Join(parts[1..], "\n"));
      LinesOfJoin(parts[1..]);
      assert StripCR(t) == t;
      assert parts == [t] + parts[1..];
    }
  }

  /** `chars().take_while(p).collect()`: the longest prefix whose characters satisfy `p`. */
  function TakeWhile(s: string, p: char -> bool): (r: string)
    ensures |r| <= |s| && r == s[..|r|]
    ensures forall k :: 0 <= k < |r| ==> p(r[k])
    ensures |r| < |s| ==> !p(s[|r|])
    decreases |s|
  {
    if s != [] && p(s[0]) then [s[0]] + TakeWhile(s[1..], p) else []
  }

  /** `n` copies of `pat`, one after another. */
  function Repeat(pat: string, n: nat): string {
    if n == 0 then [] else pat + Repeat(pat, n - 1)
  }

  /** `str::trim_start_matches` with a string pattern: strip every leading copy of `pat`. */
  function TrimStartMatches(s: string, pat: string): (r: string)
    ensures |r| <= |s| && r == s[|s| - |r|..]
    ensures pat != [] ==> !StartsWith(r, pat)
    decreases |s|
  {
    if pat != [] && StartsWith(s, pat) then TrimStartMatches(s[|pat|..], pat) else s
  }

  /** What `TrimStartMatches` removes is some number of whole copies of `pat`. */
  lemma {:induction false} TrimStartMatchesStripsCopies(s: string, pat: string)
    requires pat != []
    ensures exists n: nat :: s == Repeat(pat, n) + TrimStartMatches(s, pat)
    decreases |s|
  {
    var r := TrimStartMatches(s, pat);
    if StartsWith(s, pat) {
      TrimStartMatchesStripsCopies(s[|pat|..], pat);
      RepeatOnceMore(s, pat, r);
    } else {
      assert s == Repeat(pat, 0) + s;
    }
  }

  /** Copies of `pat` before `r` after a leading `pat` are one more copy before `r`. */
  lemma {:induction false} RepeatOnceMore(s: string, pat: string, r: string)
    requires StartsWith(s, pat)
    requires exists n: nat :: s[|pat|..] == Repeat(pat, n) + r
    ensures exists n: nat :: s == Repeat(pat, n) + r
  {
    var n: nat :| s[|pat|..] == Repeat(pat, n) + r;
    assert s == pat + s[|pat|..];
    assert Repeat(pat, n + 1) == pat + Repeat(pat, n);
    AppendAssoc(pat, Repeat(pat, n), r);
  }

  /** `str::trim_end_matches` with a character pattern: strip every trailing `c`. */
  function TrimEndMatches(s: string, c: char): (r: string)
    ensures |r| <= |s| && r == s[..|r|]
    ensures r == [] || r[|r| - 1] != c
    ensures forall k :: |r| <= k < |s| ==> s[k] == c
    decreases |s|
  {
    if |s| > 0 && s[|s| - 1] == c then TrimEndMatches(s[..|s| - 1], c) else s
  }

  predicate IsDigit(c: char) {
    '0' <= c <= '9'
  }

  function DigitChar(d: nat): (c: char)
    requires d < 10
    ensures IsDigit(c)
  {
    "0123456789"[d]
  }

  function DigitValue(c: char): (d: nat)
    requires IsDigit(c)
    ensures d < 10
  {
    (c as int - '0' as int) as nat
  }

  /** `to_string` on an unsigned integer: its decimal digits, without leading zeros. */
  function NatToString(n: nat): (r: string)
    ensures r != [] && forall k :: 0 <= k < |r| ==> IsDigit(r[k])
    ensures r[0] == '0' ==> n == 0
  {
    if n < 10 then [DigitChar(n)] else NatToString(n / 10) + [DigitChar(n % 10)]
  }

  /** The value of a string of decimal digits. */
  function ParseDecimal(s: string): nat
    requires forall k :: 0 <= k < |s| ==> IsDigit(s[k])
  {
    if s == [] then 0 else ParseDecimal(s[..|s| - 1]) * 10 + DigitValue(s[|s| - 1])
  }

  /** Reading the decimal rendering back gives the number: the rendering loses nothing. */
  lemma {:induction false} NatToStringRoundTrip(n: nat)
    ensures ParseDecimal(NatToString(n)) == n
  {
    var r := NatToString(n);
    if n < 10 {
      assert r[..0] == [];
      assert DigitValue(DigitChar(n)) == n;
    } else {
      NatToStringRoundTrip(n / 10);
      assert r[..|r| - 1] == NatToString(n / 10);
      assert DigitValue(DigitChar(n % 10)) == n % 10;
    }
  }

  predicate IsUpper(c: char) {
    'A' <= c <= 'Z'
  }

  function LowerChar(c: char): char {
    if IsUpper(c) then (c as int + 32) as char else c
  }

  /**
   * `to_lowercase` restricted to ASCII letters: no capital is left, each
   * capital becomes the small letter at the same place in the alphabet, and
   * every other character is kept.
   */
  function AsciiLower(s: string): (r: string)
    ensures |r| == |s|
    ensures forall k :: 0 <= k < |r| ==> !IsUpper(r[k])
    ensures forall k :: 0 <= k < |s| && IsUpper(s[k]) ==> r[k] as int - 'a' as int == s[k] as int - 'A' as int
    ensures forall k :: 0 <= k < |s| && !IsUpper(s[k]) ==> r[k] == s[k]
  {
    seq(|s|, k requires 0 <= k < |s| => LowerChar(s[k]))
  }

  /** Lowering twice is lowering once. */
  lemma AsciiLowerIdempotent(s: string)
    ensures AsciiLower(AsciiLower(s)) == AsciiLower(s)
  {
  }
}
