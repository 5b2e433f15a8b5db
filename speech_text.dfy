/** The text clean-up that TextToSpeechService applies before a reply is
    handed to the speech engine, and the engine's language choice.
    Each regular-expression substitution of the source is written out as a
    recursive string function; the six stages run in the source's order. */
module SpeechText {
  import opened Common

  /** Python's `str.isspace()`: the characters `\s` matches in a `str`
      pattern, and the ones `strip()` removes. */
  predicate IsSpace(c: char)
  {
    ('\U{9}' <= c <= '\U{D}') || ('\U{1C}' <= c <= '\U{20}') || c == '\U{85}' || c == '\U{A0}'
    || c == '\U{1680}' || ('\U{2000}' <= c <= '\U{200A}') || c == '\U{2028}' || c == '\U{2029}'
    || c == '\U{202F}' || c == '\U{205F}' || c == '\U{3000}'
  }

  /** No two whitespace characters stand next to each other. */
  predicate SingleSpaced(s: string)
  {
    forall i :: 0 < i < |s| ==> !(IsSpace(s[i - 1]) && IsSpace(s[i]))
  }

  /** No line break anywhere in `s[lo..hi]`. */
  predicate OnOneLine(s: string, lo: int, hi: int)
    requires 0 <= lo <= hi <= |s|
  {
    forall m :: lo <= m < hi ==> s[m] != '\n'
  }

  // ---------------------------------------------------------------------
  // `[**]`, `[*]`: delete a character

  /** `re.sub('[c]', '', s)`: every `c` deleted, every other character kept. */
  function Delete(s: string, c: char): (r: string)
    ensures c !in r
    ensures forall x :: x in r <==> x in s && x != c
    ensures c !in s ==> r == s
    ensures |r| <= |s|
  {
    if s == [] then []
    else
      assert s == [s[0]] + s[1..];
      (if s[0] == c then [] else [s[0]]) + Delete(s[1..], c)
  }

  /** Every other character survives as often as it occurs; `c` not at all. */
  lemma {:induction false} DeleteCounts(s: string, c: char)
    ensures multiset(Delete(s, c)) == multiset(s)[c := 0]
  {
    if s != [] {
      DeleteCounts(s[1..], c);
      assert s == [s[0]] + s[1..];
    }
  }

  /** Deleting a character a second time changes nothing (why the `[*]`
      pass after `[**]` is a no-op). */
  lemma {:induction false} DeleteIdempotent(s: string, c: char)
    ensures Delete(Delete(s, c), c) == Delete(s, c)
  {
    if s != [] {
      DeleteIdempotent(s[1..], c);
      var rest := Delete(s[1..], c);
      var head := if s[0] == c then [] else [s[0]];
      assert Delete(s, c) == head + rest;
      DeleteConcat(head, rest, c);
    }
  }

  /** Deleting from a concatenation deletes from each part. */
  lemma {:induction false} DeleteConcat(a: string, b: string, c: char)
    ensures Delete(a + b, c) == Delete(a, c) + Delete(b, c)
  {
    if a != [] {
      var head := if a[0] == c then [] else [a[0]];
      DeleteConcat(a[1..], b, c);
      assert (a + b)[0] == a[0] && (a + b)[1..] == a[1..] + b;
      assert Delete(a + b, c) == head + Delete(a[1..] + b, c);
      ConcatAssoc(head, Delete(a[1..], c), Delete(b, c));
    } else {
      assert a + b == b;
    }
  }

  // ---------------------------------------------------------------------
  // `#+`: delete runs of a character

  /** The input with its leading run of `c` removed. */
  function DropRun(s: string, c: char): (r: string)
    ensures |r| <= |s| && r == s[|s| - |r|..]
    ensures r == [] || r[0] != c
    ensures forall i :: 0 <= i < |s| - |r| ==> s[i] == c
    ensures s != [] && s[0] == c ==> |r| < |s|
  {
    if s != [] && s[0] == c then DropRun(s[1..], c) else s
  }

  lemma {:induction false} DeleteAfterDropRun(s: string, c: char)
    ensures Delete(DropRun(s, c), c) == Delete(s, c)
  {
    if s != [] && s[0] == c {
      DeleteAfterDropRun(s[1..], c);
    }
  }

  /** `re.sub('c+', '', s)`: each maximal run of `c` is deleted. */
  function DeleteRuns(s: string, c: char): (r: string)
    ensures c !in r
    ensures forall x :: x in r <==> x in s && x != c
    decreases |s|
  {
    if s == [] then []
    else if s[0] == c then DeleteRuns(DropRun(s, c), c)
    else [s[0]] + DeleteRuns(s[1..], c)
  }

  /** Deleting runs of `#` is the same as deleting every `#`. */
  lemma {:induction false} DeleteRunsIsDelete(s: string, c: char)
    ensures DeleteRuns(s, c) == Delete(s, c)
    decreases |s|
  {
    if s != [] {
      if s[0] == c {
        DeleteRunsIsDelete(DropRun(s, c), c);
        DeleteAfterDropRun(s, c);
      } else {
        DeleteRunsIsDelete(s[1..], c);
      }
    }
  }

  // ---------------------------------------------------------------------
  // `\[.*?\]\(.*?\)`: delete markdown links

  /** The lazy `\(.*?\)` tail: the first `)` at or after `k` with no line
      break in between. */
  function CloseParen(s: string, k: nat): (r: Option<nat>)
    requires k <= |s|
    ensures r.Some? ==> k <= r.value < |s| && s[r.value] == ')' && OnOneLine(s, k, r.value + 1)
    ensures r.None? ==> forall m :: k <= m < |s| && s[m] == ')' ==> !OnOneLine(s, k, m + 1)
    decreases |s| - k
  {
    if k == |s| || s[k] == '\n' then None
    else if s[k] == ')' then Some(k)
    else CloseParen(s, k + 1)
  }

  /** The lazy `\[.*?\]` part of a match that began with `[` at index 0,
      with index `j` the next candidate for the `]`: candidates are tried
      left to right, and a `](` whose `(` finds no `)` on its line is given
      up for the next one (backtracking). The result is the end of the
      match, exclusive. */
  function LinkEnd(s: string, j: nat): (r: Option<nat>)
    requires 1 <= j <= |s|
    ensures r.Some? ==> j + 3 <= r.value <= |s|
    decreases |s| - j
  {
    if j == |s| || s[j] == '\n' then None
    else if s[j] == ']' && j + 1 < |s| && s[j + 1] == '(' then
      match CloseParen(s, j + 2)
      case Some(k) => Some(k + 1)
      case None => LinkEnd(s, j + 1)
    else LinkEnd(s, j + 1)
  }

  /** Length of the link-pattern match starting at the first character of
      `s`, if the pattern matches there. */
  function LinkLength(s: string): (r: Option<nat>)
    ensures r.Some? ==> 4 <= r.value <= |s|
  {
    if s != [] && s[0] == '[' then LinkEnd(s, 1) else None
  }

  /** `re.sub(r'\[.*?\]\(.*?\)', '', s)`: scanning left to right, a match is
      deleted and scanning resumes after it; elsewhere a character is kept. */
  function RemoveLinks(s: string): (r: string)
    ensures forall x :: x in r ==> x in s
    ensures '[' !in s ==> r == s
    decreases |s|
  {
    if s == [] then []
    else match LinkLength(s)
      case Some(n) => RemoveLinks(s[n..])
      case None =>
        assert s == [s[0]] + s[1..];
        [s[0]] + RemoveLinks(s[1..])
  }

  /** Text before the first `[` is kept as it stands: a link can only
      start at a `[`. */
  lemma {:induction false} RemoveLinksKeepsPlainPrefix(a: string, b: string)
    requires '[' !in a
    ensures RemoveLinks(a + b) == a + RemoveLinks(b)
  {
    if a == [] {
      assert a + b == b;
    } else {
      assert (a + b)[0] == a[0] && (a + b)[1..] == a[1..] + b;
      assert '[' !in a[1..] by { assert a == [a[0]] + a[1..]; }
      RemoveLinksKeepsPlainPrefix(a[1..], b);
      assert LinkLength(a + b).None?;
      assert RemoveLinks(a + b) == [a[0]] + RemoveLinks(a[1..] + b);
      ConcatAssoc([a[0]], a[1..], RemoveLinks(b));
      assert a == [a[0]] + a[1..];
    }
  }

  /** What must follow an opening `[` (from index `j` on) for the link
      pattern to match: a `](`, later a `)`, and no line break. */
  ghost predicate LinkTailFrom(s: string, j: nat)
  {
    exists a, k :: TailAt(s, j, a, k)
  }

  /** The `](` at index `a` and the `)` at index `k` complete a link whose
      text after the `[` starts at `j`. */
  ghost predicate TailAt(s: string, j: int, a: int, k: int)
  {
    0 <= j <= a && a + 1 < k < |s| && s[a] == ']' && s[a + 1] == '(' && s[k] == ')' && OnOneLine(s, j, k + 1)
  }

  ghost predicate LinkTail(u: string)
  {
    LinkTailFrom(u, 0)
  }

  /** A newline-free markdown link `[..](..)`: the independent description
      of what the pattern matches. */
  ghost predicate IsLink(t: string)
  {
    && |t| >= 4 && t[0] == '[' && t[|t| - 1] == ')' && OnOneLine(t, 0, |t|)
    && exists m :: 1 <= m && m + 2 < |t| && t[m] == ']' && t[m + 1] == '('
  }

  ghost predicate LinkFree(r: string)
  {
    forall a, b :: 0 <= a <= b <= |r| ==> !IsLink(r[a..b])
  }

  /** The backtracking search finds a match exactly when a link tail exists. */
  lemma {:induction false} LinkEndFindsTail(s: string, j: nat)
    requires 1 <= j <= |s|
    ensures LinkEnd(s, j).Some? <==> LinkTailFrom(s, j)
    decreases |s| - j
  {
    if j == |s| {
    } else if s[j] == '\n' {
      NoTailAtLineBreak(s, j);
    } else if s[j] == ']' && j + 1 < |s| && s[j + 1] == '(' && CloseParen(s, j + 2).Some? {
      var k := CloseParen(s, j + 2).value;
      assert TailAt(s, j, j, k);
    } else {
      LinkEndFindsTail(s, j + 1);
      TailSkipsFirst(s, j);
    }
  }

  lemma NoTailAtLineBreak(s: string, j: nat)
    requires j < |s| && s[j] == '\n'
    ensures !LinkTailFrom(s, j)
  {
  }

  /** Moving the start one step right keeps a tail, unless the first
      character itself began the only `](` that could close it. */
  lemma TailSkipsFirst(s: string, j: nat)
    requires j < |s| && s[j] != '\n'
    requires !(s[j] == ']' && j + 1 < |s| && s[j + 1] == '(' && CloseParen(s, j + 2).Some?)
    ensures LinkTailFrom(s, j) <==> LinkTailFrom(s, j + 1)
  {
    if LinkTailFrom(s, j) {
      var a, k :| TailAt(s, j, a, k);
      assert OnOneLine(s, a + 2, k + 1);
      assert a != j;
      assert TailAt(s, j + 1, a, k);
    }
    if LinkTailFrom(s, j + 1) {
      var a, k :| TailAt(s, j + 1, a, k);
      assert TailAt(s, j, a, k);
    }
  }

  /** A tail from index `j` of `s` becomes a tail of the suffix `s[j..]`. */
  lemma TailToSuffix(s: string, j: nat)
    requires j <= |s| && LinkTailFrom(s, j)
    ensures LinkTail(s[j..])
  {
    var u := s[j..];
    var a, k :| TailAt(s, j, a, k);
    assert u[a - j] == ']' && u[a - j + 1] == '(' && u[k - j] == ')';
    assert OnOneLine(u, 0, k - j + 1) by {
      forall m | 0 <= m < k - j + 1 ensures u[m] != '\n' {
        assert u[m] == s[m + j];
      }
    }
    assert TailAt(u, 0, a - j, k - j);
  }

  /** A tail of the suffix `s[j..]` is a tail from index `j` of `s`. */
  lemma TailFromSuffix(s: string, j: nat)
    requires j <= |s| && LinkTail(s[j..])
    ensures LinkTailFrom(s, j)
  {
    var u := s[j..];
    var a, k :| TailAt(u, 0, a, k);
    assert s[a + j] == ']' && s[a + j + 1] == '(' && s[k + j] == ')';
    assert OnOneLine(s, j, k + j + 1) by {
      forall m | j <= m < k + j + 1 ensures s[m] != '\n' {
        assert s[m] == u[m - j];
      }
    }
    assert TailAt(s, j, a + j, k + j);
  }

  /** The pattern matches at the start of `s` exactly when `s` opens with `[`
      followed by a link tail. */
  lemma LinkLengthIffTail(s: string)
    ensures LinkLength(s).Some? <==> s != [] && s[0] == '[' && LinkTail(s[1..])
  {
    if s != [] && s[0] == '[' {
      LinkEndFindsTail(s, 1);
      if LinkTailFrom(s, 1) { TailToSuffix(s, 1); }
      if LinkTail(s[1..]) { TailFromSuffix(s, 1); }
    }
  }

  /** A tail found after the first character is a tail of the whole string
      when that character is not a line break. */
  lemma TailExtendsLeft(u: string)
    requires u != [] && u[0] != '\n' && LinkTail(u[1..])
    ensures LinkTail(u)
  {
    TailFromSuffix(u, 1);
    var a, k :| TailAt(u, 1, a, k);
    assert TailAt(u, 0, a, k);
  }

  lemma TailOfPrefix(x: string, y: string)
    requires LinkTail(x)
    ensures LinkTail(x + y)
  {
    var a, k :| TailAt(x, 0, a, k);
    var s := x + y;
    assert s[a] == ']' && s[a + 1] == '(' && s[k] == ')';
    assert OnOneLine(s, 0, k + 1);
    assert TailAt(s, 0, a, k);
  }

  /** A link tail never reaches past the first line. */
  lemma TailWithinLine(x: string, y: string)
    requires OnOneLine(x, 0, |x|)
    requires y == [] || y[0] == '\n'
    requires LinkTail(x + y)
    ensures LinkTail(x)
  {
    var s := x + y;
    var a, k :| TailAt(s, 0, a, k);
    assert |x| < |s| ==> s[|x|] == '\n';
    assert k < |x|;
    assert x[a] == ']' && x[a + 1] == '(' && x[k] == ')';
    assert OnOneLine(x, 0, k + 1);
    assert TailAt(x, 0, a, k);
  }

  /** Index of the first line break, or the length when there is none. */
  function LineEnd(u: string): (p: nat)
    ensures p <= |u| && OnOneLine(u, 0, p)
    ensures p < |u| ==> u[p] == '\n'
  {
    if u == [] || u[0] == '\n' then 0 else 1 + LineEnd(u[1..])
  }

  /** Without a link tail, the first line passes through link removal untouched. */
  lemma {:induction false} FirstLineKept(u: string)
    requires !LinkTail(u)
    ensures RemoveLinks(u) == u[..LineEnd(u)] + RemoveLinks(u[LineEnd(u)..])
  {
    var p := LineEnd(u);
    if p > 0 {
      var v := u[1..];
      LinkLengthIffTail(u);
      assert !LinkTail(v) by {
        if LinkTail(v) { TailExtendsLeft(u); }
      }
      assert LinkLength(u).None?;
      assert LineEnd(v) == p - 1;
      FirstLineKept(v);
      assert v[..p - 1] == u[1..p];
      assert v[p - 1..] == u[p..];
      assert RemoveLinks(u) == [u[0]] + RemoveLinks(v);
      assert [u[0]] + u[1..p] == u[..p];
    }
  }

  /** Link removal cannot create a tail where there was none. */
  lemma NoTailKept(u: string)
    requires !LinkTail(u)
    ensures !LinkTail(RemoveLinks(u))
  {
    FirstLineKept(u);
    var p := LineEnd(u);
    var x, rest := u[..p], u[p..];
    assert x + rest == u;
    var y := RemoveLinks(rest);
    if rest != [] {
      assert rest[0] == '\n';
      assert LinkLength(rest).None?;
      assert y == [rest[0]] + RemoveLinks(rest[1..]);
    }
    if LinkTail(x + y) {
      TailWithinLine(x, y);
      TailOfPrefix(x, rest);
    }
  }

  /** No `[` of the output is followed by a link tail. */
  ghost predicate NoOpenLink(r: string)
  {
    forall i :: 0 <= i < |r| && r[i] == '[' ==> !LinkTail(r[i + 1..])
  }

  lemma {:induction false} RemoveLinksNoOpenLink(s: string)
    ensures NoOpenLink(RemoveLinks(s))
    decreases |s|
  {
    if s != [] {
      match LinkLength(s)
      case Some(n) =>
        RemoveLinksNoOpenLink(s[n..]);
      case None =>
        var rest := RemoveLinks(s[1..]);
        RemoveLinksNoOpenLink(s[1..]);
        var r := [s[0]] + rest;
        assert RemoveLinks(s) == r;
        assert r[1..] == rest;
        LinkLengthIffTail(s);
        if s[0] == '[' { NoTailKept(s[1..]); }
        forall i | 0 < i < |r| ensures r[i] == rest[i - 1] && r[i + 1..] == rest[i..] { }
    }
  }

  /** A link inside `r` starts with a `[` followed by a tail. */
  lemma LinkOpens(r: string, a: nat, b: nat)
    requires a <= b <= |r| && IsLink(r[a..b])
    ensures r[a] == '[' && LinkTail(r[a + 1..])
  {
    var t := r[a..b];
    var m :| 1 <= m && m + 2 < |t| && t[m] == ']' && t[m + 1] == '(';
    var u := r[a + 1..];
    assert u[m - 1] == ']' && u[m] == '(' && u[|t| - 2] == ')';
    assert OnOneLine(u, 0, |t| - 1) by {
      forall q | 0 <= q < |t| - 1 ensures u[q] != '\n' {
        assert u[q] == t[q + 1];
      }
    }
    assert TailAt(u, 0, m - 1, |t| - 2);
  }

  lemma NoOpenLinkIsLinkFree(r: string)
    requires NoOpenLink(r)
    ensures LinkFree(r)
  {
    forall a, b | 0 <= a <= b <= |r|
      ensures !IsLink(r[a..b])
    {
      if IsLink(r[a..b]) { LinkOpens(r, a, b); }
    }
  }

  /** Text in which no `[` opens a link passes link removal unchanged. */
  lemma {:induction false} RemoveLinksKeepsLinkless(s: string)
    requires NoOpenLink(s)
    ensures RemoveLinks(s) == s
    decreases |s|
  {
    if s != [] {
      var t := s[1..];
      assert NoOpenLink(t) by {
        forall i | 0 <= i < |t| && t[i] == '[' ensures !LinkTail(t[i + 1..]) {
          assert t[i] == s[i + 1] && t[i + 1..] == s[i + 2..];
        }
      }
      LinkLengthIffTail(s);
      assert LinkLength(s).None?;
      RemoveLinksKeepsLinkless(t);
      assert s == [s[0]] + t;
    }
  }

  /** The lazy `\(.*?\)` stops at the first `)` on the line. */
  lemma {:induction false} CloseParenFirst(s: string, k: nat, e: nat)
    requires k <= e < |s| && s[e] == ')' && OnOneLine(s, k, e + 1)
    ensures CloseParen(s, k).Some? && CloseParen(s, k).value <= e
    decreases e - k
  {
    if s[k] != ')' {
      CloseParenFirst(s, k + 1, e);
    }
  }

  /** Any `](` at or after `j` with a `)` later on the line bounds the match:
      it ends no later than that `)`. */
  lemma {:induction false} LinkEndFirst(s: string, j: nat, m: nat, e: nat)
    requires 1 <= j <= m && m + 2 <= e < |s|
    requires s[m] == ']' && s[m + 1] == '(' && s[e] == ')' && OnOneLine(s, j, e + 1)
    ensures LinkEnd(s, j).Some? && LinkEnd(s, j).value <= e + 1
    decreases |s| - j
  {
    assert s[j] != '\n';
    if s[j] == ']' && j + 1 < |s| && s[j + 1] == '(' && (j == m || j + 2 <= e) {
      CloseParenFirst(s, j + 2, e);
    } else {
      LinkEndFirst(s, j + 1, m, e);
    }
  }

  /** What the search finds from `j` is a `](` followed by its `)`, with no
      line break from `j` on. */
  lemma {:induction false} LinkEndShape(s: string, j: nat)
    requires 1 <= j <= |s| && LinkEnd(s, j).Some?
    ensures var n := LinkEnd(s, j).value;
            s[n - 1] == ')' && OnOneLine(s, j, n)
            && exists m :: j <= m && m + 2 < n && s[m] == ']' && s[m + 1] == '('
    decreases |s| - j
  {
    if !(s[j] == ']' && j + 1 < |s| && s[j + 1] == '(' && CloseParen(s, j + 2).Some?) {
      LinkEndShape(s, j + 1);
    }
  }

  /** Where the pattern matches, the match is the shortest link at the start
      of the text, as the lazy `.*?` parts make it. */
  lemma LinkMatchIsShortest(s: string)
    ensures LinkLength(s).Some? ==>
              var n := LinkLength(s).value;
              IsLink(s[..n]) && forall e :: 0 <= e < n ==> !IsLink(s[..e])
  {
    if LinkLength(s).Some? {
      var n := LinkLength(s).value;
      LinkEndShape(s, 1);
      var m :| 1 <= m && m + 2 < n && s[m] == ']' && s[m + 1] == '(';
      var t := s[..n];
      assert t[m] == ']' && t[m + 1] == '(' && t[n - 1] == ')' && t[0] == '[';
      assert OnOneLine(t, 0, n) by {
        forall q | 0 <= q < n ensures t[q] != '\n' { assert t[q] == s[q]; }
      }
      forall e | 0 <= e < n ensures !IsLink(s[..e]) {
        if IsLink(s[..e]) {
          var u := s[..e];
          var m' :| 1 <= m' && m' + 2 < |u| && u[m'] == ']' && u[m' + 1] == '(';
          assert OnOneLine(s, 1, e) by {
            forall q | 1 <= q < e ensures s[q] != '\n' { assert s[q] == u[q]; }
          }
          assert s[m'] == ']' && s[m' + 1] == '(' && s[e - 1] == ')' by {
            assert u[m'] == s[m'] && u[m' + 1] == s[m' + 1] && u[e - 1] == s[e - 1];
          }
          LinkEndFirst(s, 1, m', e - 1);
        }
      }
    }
  }

  /** After link removal no newline-free `[..](..)` is left anywhere. */
  lemma RemoveLinksLinkFree(s: string)
    ensures LinkFree(RemoveLinks(s))
  {
    RemoveLinksNoOpenLink(s);
    NoOpenLinkIsLinkFree(RemoveLinks(s));
  }

  // ---------------------------------------------------------------------
  // `\n+` -> ". "

  /** `re.sub(r'\n+', '. ', s)`: each run of line breaks becomes `". "`. */
  function NewlineRunsToStops(s: string): (r: string)
    ensures '\n' !in r
    decreases |s|
  {
    if s == [] then []
    else if s[0] == '\n' then ". " + NewlineRunsToStops(DropRun(s, '\n'))
    else [s[0]] + NewlineRunsToStops(s[1..])
  }

  /** Besides `.` and space, the stage introduces no character. */
  lemma {:induction false} StopsAddNothing(s: string, c: char)
    requires c !in s && c != '.' && c != ' '
    ensures c !in NewlineRunsToStops(s)
    decreases |s|
  {
    if s != [] {
      if s[0] == '\n' {
        var t := DropRun(s, '\n');
        assert c !in t by { assert t == s[|s| - |t|..]; }
        StopsAddNothing(t, c);
      } else {
        assert c !in s[1..] by { assert s == [s[0]] + s[1..]; }
        StopsAddNothing(s[1..], c);
      }
    }
  }

  /** Text without line breaks passes through unchanged. */
  lemma {:induction false} StopsKeepSingleLine(s: string)
    requires '\n' !in s
    ensures NewlineRunsToStops(s) == s
    decreases |s|
  {
    if s != [] {
      assert '\n' !in s[1..] by { assert s == [s[0]] + s[1..]; }
      StopsKeepSingleLine(s[1..]);
    }
  }

  /** Dropping the leading run of `c` from a run of `c` followed by text not
      opening with `c` leaves that text. */
  lemma {:induction false} DropWholeRun(w: string, b: string, c: char)
    requires forall i :: 0 <= i < |w| ==> w[i] == c
    requires b == [] || b[0] != c
    ensures DropRun(w + b, c) == b
  {
    if w == [] {
      assert w + b == b;
    } else {
      assert (w + b)[1..] == w[1..] + b;
      DropWholeRun(w[1..], b, c);
    }
  }

  /** Text before the first line break is kept as it stands. */
  lemma {:induction false} StopsKeepLinePrefix(a: string, b: string)
    requires '\n' !in a
    ensures NewlineRunsToStops(a + b) == a + NewlineRunsToStops(b)
  {
    if a == [] {
      assert a + b == b;
    } else {
      assert (a + b)[0] == a[0] && (a + b)[1..] == a[1..] + b;
      assert '\n' !in a[1..] by { assert a == [a[0]] + a[1..]; }
      StopsKeepLinePrefix(a[1..], b);
      assert NewlineRunsToStops(a + b) == [a[0]] + NewlineRunsToStops(a[1..] + b);
      ConcatAssoc([a[0]], a[1..], NewlineRunsToStops(b));
      assert a == [a[0]] + a[1..];
    }
  }

  /** A run of line breaks becomes one `". "`. */
  lemma StopsRun(w: string, b: string)
    requires w != [] && forall i :: 0 <= i < |w| ==> w[i] == '\n'
    requires b == [] || b[0] != '\n'
    ensures NewlineRunsToStops(w + b) == ". " + NewlineRunsToStops(b)
  {
    DropWholeRun(w, b, '\n');
    assert (w + b)[0] == '\n';
  }

  // ---------------------------------------------------------------------
  // `\s+` -> " " and strip()

  /** `s.lstrip()`: leading whitespace removed. */
  function TrimStart(s: string): (r: string)
    ensures |r| <= |s| && r == s[|s| - |r|..]
    ensures r == [] || !IsSpace(r[0])
    ensures forall i :: 0 <= i < |s| - |r| ==> IsSpace(s[i])
    ensures s != [] && IsSpace(s[0]) ==> |r| < |s|
  {
    if s != [] && IsSpace(s[0]) then TrimStart(s[1..]) else s
  }

  /** `s.rstrip()`: trailing whitespace removed. */
  function TrimEnd(s: string): (r: string)
    ensures |r| <= |s| && r == s[..|r|]
    ensures r == [] || !IsSpace(r[|r| - 1])
    ensures forall i :: |r| <= i < |s| ==> IsSpace(s[i])
  {
    if s != [] && IsSpace(s[|s| - 1]) then TrimEnd(s[..|s| - 1]) else s
  }

  /** `re.sub(r'\s+', ' ', s)`: each whitespace run becomes one space. */
  function CollapseSpaces(s: string): (r: string)
    ensures SingleSpaced(r)
    ensures (r == []) == (s == [])
    ensures r != [] ==> (IsSpace(r[0]) <==> IsSpace(s[0]))
    decreases |s|
  {
    if s == [] then []
    else
      var head := if IsSpace(s[0]) then ' ' else s[0];
      var rest := if IsSpace(s[0]) then CollapseSpaces(TrimStart(s)) else CollapseSpaces(s[1..]);
      assert forall i :: 1 < i < |[head] + rest| ==> ([head] + rest)[i] == rest[i - 1];
      [head] + rest
  }

  /** The only whitespace character left is the plain space, and no other
      character is introduced. */
  lemma {:induction false} CollapseAddsOnlySpace(s: string, c: char)
    requires c !in s || IsSpace(c)
    requires c != ' '
    ensures c !in CollapseSpaces(s)
    decreases |s|
  {
    if s != [] {
      var t := if IsSpace(s[0]) then TrimStart(s) else s[1..];
      if c !in s {
        AbsentFromSuffix(s, |s| - |t|, c);
      }
      CollapseAddsOnlySpace(t, c);
      assert CollapseSpaces(s) == [if IsSpace(s[0]) then ' ' else s[0]] + CollapseSpaces(t);
    }
  }

  /** Single-spaced text whose only whitespace is the plain space. */
  predicate PlainSpaced(s: string)
  {
    SingleSpaced(s) && forall i :: 0 <= i < |s| && IsSpace(s[i]) ==> s[i] == ' '
  }

  /** lstrip() of a whitespace run followed by text that does not open
      with whitespace is that text. */
  lemma {:induction false} TrimStartRun(w: string, b: string)
    requires forall i :: 0 <= i < |w| ==> IsSpace(w[i])
    requires b == [] || !IsSpace(b[0])
    ensures TrimStart(w + b) == b
  {
    if w == [] {
      assert w + b == b;
    } else {
      assert (w + b)[1..] == w[1..] + b;
      TrimStartRun(w[1..], b);
    }
  }

  /** lstrip() only looks at a prefix that ends in a non-space. */
  lemma {:induction false} TrimStartConcat(a: string, b: string)
    requires a != [] && !IsSpace(a[|a| - 1])
    ensures TrimStart(a + b) == TrimStart(a) + b
  {
    if IsSpace(a[0]) {
      assert (a + b)[1..] == a[1..] + b;
      TrimStartConcat(a[1..], b);
    }
  }

  /** A whitespace run becomes a single plain space. */
  lemma CollapseRun(w: string, b: string)
    requires w != [] && forall i :: 0 <= i < |w| ==> IsSpace(w[i])
    requires b == [] || !IsSpace(b[0])
    ensures CollapseSpaces(w + b) == [' '] + CollapseSpaces(b)
  {
    TrimStartRun(w, b);
  }

  /** Collapsing works piece by piece when the first piece does not end
      inside a whitespace run; with CollapseRun and CollapseKeepsPlain this
      fixes what is kept, and in which order. */
  lemma {:induction false} CollapseConcat(a: string, b: string)
    requires a == [] || !IsSpace(a[|a| - 1])
    ensures CollapseSpaces(a + b) == CollapseSpaces(a) + CollapseSpaces(b)
    decreases |a|
  {
    if a == [] {
      assert a + b == b;
    } else if IsSpace(a[0]) {
      var t := TrimStart(a);
      TrimStartConcat(a, b);
      assert t != [] && t[|t| - 1] == a[|a| - 1];
      CollapseConcat(t, b);
      assert (a + b)[0] == a[0];
      assert CollapseSpaces(a + b) == [' '] + CollapseSpaces(t + b);
      assert CollapseSpaces(a) == [' '] + CollapseSpaces(t);
      ConcatAssoc([' '], CollapseSpaces(t), CollapseSpaces(b));
    } else {
      var t := a[1..];
      assert (a + b)[0] == a[0] && (a + b)[1..] == t + b;
      CollapseConcat(t, b);
      assert CollapseSpaces(a + b) == [a[0]] + CollapseSpaces(t + b);
      assert CollapseSpaces(a) == [a[0]] + CollapseSpaces(t);
      ConcatAssoc([a[0]], CollapseSpaces(t), CollapseSpaces(b));
    }
  }

  /** Text that is already single- and plain-spaced is left unchanged. */
  lemma {:induction false} CollapseKeepsPlain(s: string)
    requires PlainSpaced(s)
    ensures CollapseSpaces(s) == s
    decreases |s|
  {
    if s != [] {
      var t := s[1..];
      assert PlainSpaced(t) by {
        forall i | 0 < i < |t| ensures !(IsSpace(t[i - 1]) && IsSpace(t[i])) {
          assert t[i - 1] == s[i] && t[i] == s[i + 1];
        }
        forall i | 0 <= i < |t| && IsSpace(t[i]) ensures t[i] == ' ' {
          assert t[i] == s[i + 1];
        }
      }
      CollapseKeepsPlain(t);
      if IsSpace(s[0]) {
        assert t == [] || !IsSpace(t[0]) by { if t != [] { assert t[0] == s[1]; } }
        CollapseRun([s[0]], t);
        assert s == [s[0]] + t;
      }
    }
  }

  /** `s.strip()`: whitespace removed from both ends. */
  function Strip(s: string): (r: string)
    ensures r == [] || (!IsSpace(r[0]) && !IsSpace(r[|r| - 1]))
  {
    TrimEnd(TrimStart(s))
  }

  /** What strip() keeps is one contiguous piece of its input. */
  lemma StripIsSlice(s: string)
    ensures var r := Strip(s); var a := |s| - |TrimStart(s)|;
            a + |r| <= |s| && r == s[a..a + |r|]
  {
    var t := TrimStart(s);
    var a := |s| - |t|;
    var r := TrimEnd(t);
    SliceOfSuffix(s, a, |r|);
  }

  /** What strip() removes is whitespace at the two ends, and nothing else. */
  lemma StripRemovesOnlySpace(s: string)
    ensures var r := Strip(s); var a := |s| - |TrimStart(s)|;
            (forall i :: 0 <= i < a ==> IsSpace(s[i]))
            && (forall i :: a + |r| <= i < |s| ==> IsSpace(s[i]))
  {
    var t := TrimStart(s);
    var a := |s| - |t|;
    var r := TrimEnd(t);
    assert t == s[a..];
    forall i | a + |r| <= i < |s| ensures IsSpace(s[i]) {
      assert s[i] == t[i - a];
    }
  }

  lemma StripKeepsAbsent(s: string, c: char)
    requires c !in s
    ensures c !in Strip(s)
  {
    StripIsSlice(s);
  }

  lemma StripKeepsSingleSpaced(s: string)
    requires SingleSpaced(s)
    ensures SingleSpaced(Strip(s))
  {
    StripIsSlice(s);
    var r := Strip(s);
    var a := |s| - |TrimStart(s)|;
    forall i | 0 < i < |r| ensures !(IsSpace(r[i - 1]) && IsSpace(r[i])) {
      assert r[i - 1] == s[a + i - 1] && r[i] == s[a + i];
    }
  }

  /** Text without whitespace at either end passes strip() unchanged. */
  lemma StripKeepsTrimmed(s: string)
    requires s == [] || (!IsSpace(s[0]) && !IsSpace(s[|s| - 1]))
    ensures Strip(s) == s
  {
  }

  // ---------------------------------------------------------------------
  // The pipeline

  /** The first five substitutions of `clean_text_for_speech`, in order:
      `[**]`, `[*]`, `#+`, the link pattern, then `\n+`. What they leave
      holds no `*`, `#` or line break. */
  function SpeechStops(text: string): (r: string)
    ensures '*' !in r && '#' !in r && '\n' !in r
  {
    var noStars := Delete(Delete(text, '*'), '*');
    var noHashes := DeleteRuns(noStars, '#');
    var noLinks := RemoveLinks(noHashes);
    StopsAddNothing(noLinks, '*');
    StopsAddNothing(noLinks, '#');
    NewlineRunsToStops(noLinks)
  }

  /** `clean_text_for_speech`: the substitutions above, then `\s+`, then
      strip(). The result is single-spaced with no whitespace at either end. */
  function CleanTextForSpeech(text: string): (r: string)
    ensures SingleSpaced(r)
    ensures r == [] || (!IsSpace(r[0]) && !IsSpace(r[|r| - 1]))
  {
    StripKeepsSingleSpaced(CollapseSpaces(SpeechStops(text)));
    Strip(CollapseSpaces(SpeechStops(text)))
  }

  /** Plain text (no markup characters, no line breaks, single plain spaces,
      nothing to strip) is spoken exactly as written. */
  lemma CleanKeepsPlainText(t: string)
    requires '*' !in t && '#' !in t && '[' !in t && '\n' !in t
    requires PlainSpaced(t)
    requires t == [] || (!IsSpace(t[0]) && !IsSpace(t[|t| - 1]))
    ensures CleanTextForSpeech(t) == t
  {
    DeleteRunsIsDelete(t, '#');
    StopsKeepSingleLine(t);
    CollapseKeepsPlain(t);
    StripKeepsTrimmed(t);
  }

  /** Any character other than a plain space that the spoken form contains
      was in the text before collapsing, and is not whitespace. */
  lemma SpokenFormAvoids(text: string, c: char)
    requires c != ' ' && (c !in SpeechStops(text) || IsSpace(c))
    ensures c !in CleanTextForSpeech(text)
  {
    var collapsed := CollapseSpaces(SpeechStops(text));
    CollapseAddsOnlySpace(SpeechStops(text), c);
    StripKeepsAbsent(collapsed, c);
  }

  /** Whitespace in the spoken form is only the plain space. */
  lemma SpokenSpacesArePlain(text: string)
    ensures forall c :: IsSpace(c) && c != ' ' ==> c !in CleanTextForSpeech(text)
  {
    forall c | IsSpace(c) && c != ' ' ensures c !in CleanTextForSpeech(text) {
      SpokenFormAvoids(text, c);
    }
  }

  /** The spoken form has no `*`, `#` or line break, whitespace only as
      single plain spaces, and none at either end. */
  lemma SpokenFormClean(text: string)
    ensures '*' !in CleanTextForSpeech(text)
    ensures '#' !in CleanTextForSpeech(text)
    ensures '\n' !in CleanTextForSpeech(text)
    ensures SingleSpaced(CleanTextForSpeech(text))
    ensures forall i :: 0 <= i < |CleanTextForSpeech(text)| && IsSpace(CleanTextForSpeech(text)[i])
                        ==> CleanTextForSpeech(text)[i] == ' '
    ensures var r := CleanTextForSpeech(text); r == [] || (!IsSpace(r[0]) && !IsSpace(r[|r| - 1]))
  {
    SpokenFormAvoids(text, '*');
    SpokenFormAvoids(text, '#');
    SpokenFormAvoids(text, '\n');
    StripKeepsSingleSpaced(CollapseSpaces(SpeechStops(text)));
    SpokenSpacesArePlain(text);
    var r := CleanTextForSpeech(text);
    forall i | 0 <= i < |r| && IsSpace(r[i]) ensures r[i] == ' ' {
      assert r[i] in r;
    }
  }

  // ---------------------------------------------------------------------
  // text_to_speech

  /** The language code handed to the speech engine: `km` for Khmer, `en`
      for every other request. */
  function TtsLanguage(lang: string): (code: string)
    ensures code == "km" || code == "en"
    ensures code == "km" <==> lang == "km"
  {
    if lang == "km" then "km" else "en"
  }

  /** `text_to_speech`: the engine (a parameter; gTTS plus base64 in the
      source) receives the cleaned text and the mapped language and yields
      encoded audio, or None when it fails. */
  function TextToSpeech(text: string, lang: string, engine: (string, string) -> Option<string>): (audio: Option<string>)
    ensures lang == "km" ==> audio == engine(CleanTextForSpeech(text), "km")
    ensures lang != "km" ==> audio == engine(CleanTextForSpeech(text), "en")
  {
    engine(CleanTextForSpeech(text), TtsLanguage(lang))
  }
}
