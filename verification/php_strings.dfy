/**
 * The PHP string built-ins the orchestrator relies on: explode(',', s),
 * trim(s) with its default character list, and the text that
 * preg_replace('/^.*\\\\/', '', s) leaves.
 */
module PhpStrings {

  // ---------------------------------------------------------------------------
  // explode(',', s)

  /** The pieces of `s` between its commas, in order; "" gives the single piece "". */
  function Explode(s: string): (pieces: seq<string>)
    ensures |pieces| > 0
    ensures forall i :: 0 <= i < |pieces| ==> ',' !in pieces[i]
    decreases |s|
  {
    if s == [] then [""]
    else
      var rest := Explode(s[1..]);
      if s[0] == ',' then [""] + rest
      else [[s[0]] + rest[0]] + rest[1..]
  }

  /** explode(',', s) gives one more piece than `s` has commas. */
  lemma {:induction false} ExplodeCount(s: string)
    ensures |Explode(s)| == multiset(s)[','] + 1
    decreases |s|
  {
    if s != [] {
      ExplodeCount(s[1..]);
      assert s == [s[0]] + s[1..];
      assert multiset(s) == multiset([s[0]]) + multiset(s[1..]);
    }
  }

  /** implode(',', pieces): the pieces joined with commas. */
  function Implode(pieces: seq<string>): (s: string)
    requires |pieces| > 0
    decreases |pieces|
  {
    if |pieces| == 1 then pieces[0] else pieces[0] + "," + Implode(pieces[1..])
  }

  /** Joining the pieces with commas gives the original string back. */
  lemma {:induction false} ImplodeExplode(s: string)
    ensures Implode(Explode(s)) == s
    decreases |s|
  {
    if s != [] {
      var rest := Explode(s[1..]);
      ImplodeExplode(s[1..]);
      if s[0] == ',' {
        var pieces := [""] + rest;
        assert pieces[1..] == rest;
        assert Implode(pieces) == "," + Implode(rest);
      } else {
        ImplodePrependHead(s[0], rest);
      }
      assert s == [s[0]] + s[1..];
    }
  }

  /** Putting a character in front of the first piece puts it in front of the joined string. */
  lemma {:induction false} ImplodePrependHead(c: char, pieces: seq<string>)
    requires |pieces| > 0
    ensures Implode([[c] + pieces[0]] + pieces[1..]) == [c] + Implode(pieces)
  {
    var longer := [[c] + pieces[0]] + pieces[1..];
    if |pieces| > 1 {
      assert longer[1..] == pieces[1..];
      assert Implode(longer) == [c] + pieces[0] + "," + Implode(pieces[1..]);
    }
  }

  /** Splitting a comma-joined list of comma-free pieces gives the pieces back. */
  lemma {:induction false} ExplodeImplode(pieces: seq<string>)
    requires |pieces| > 0
    requires forall i :: 0 <= i < |pieces| ==> ',' !in pieces[i]
    ensures Explode(Implode(pieces)) == pieces
    decreases |pieces|
  {
    var first := pieces[0];
    assert ',' !in first;
    if |pieces| == 1 {
      ExplodeNoComma(first);
    } else {
      var others := pieces[1..];
      assert forall i :: 0 <= i < |others| ==> others[i] == pieces[i + 1];
      ExplodeImplode(others);
      var t := Implode(others);
      assert Implode(pieces) == first + "," + t;
      ExplodeCommaFree(first, t);
      assert pieces == [first] + others;
    }
  }

  /** A comma-free string is a single piece. */
  lemma {:induction false} ExplodeNoComma(p: string)
    requires ',' !in p
    ensures Explode(p) == [p]
    decreases |p|
  {
    if p != [] {
      ExplodeNoComma(p[1..]);
      assert Explode(p) == [[p[0]] + p[1..]];
      assert [p[0]] + p[1..] == p;
    }
  }

  /** A comma-free prefix becomes the first piece, and the pieces after it are unaffected. */
  lemma {:induction false} ExplodeCommaFree(p: string, t: string)
    requires ',' !in p
    ensures Explode(p + "," + t) == [p] + Explode(t)
    decreases |p|
  {
    var q := p + "," + t;
    if p == [] {
      assert q == [','] + t;
      assert q[1..] == t;
      assert Explode(q) == [""] + Explode(t);
    } else {
      assert q[0] == p[0] && q[0] != ',';
      assert q[1..] == p[1..] + "," + t;
      ExplodeCommaFree(p[1..], t);
      var rest := Explode(q[1..]);
      assert rest == [p[1..]] + Explode(t);
      assert rest[0] == p[1..] && rest[1..] == Explode(t);
      assert Explode(q) == [[p[0]] + p[1..]] + Explode(t);
      assert [p[0]] + p[1..] == p;
    }
  }

  // ---------------------------------------------------------------------------
  // trim(s)

  /** The characters trim() strips by default: space, tab, newline, carriage return, NUL and vertical tab. */
  predicate IsTrimmable(c: char) {
    c == ' ' || c == '\t' || c == '\n' || c == '\r' || c == '\0' || c == '\U{B}'
  }

  predicate AllTrimmable(s: string) {
    forall i :: 0 <= i < |s| ==> IsTrimmable(s[i])
  }

  /** `s` does not start or end with a character trim() strips. */
  predicate IsTrimmed(s: string) {
    s == [] || (!IsTrimmable(s[0]) && !IsTrimmable(s[|s| - 1]))
  }

  function TrimLeft(s: string): (r: string)
    ensures |r| <= |s| && r == s[|s| - |r|..]
    ensures AllTrimmable(s[..|s| - |r|])
    ensures r == [] || !IsTrimmable(r[0])
    decreases |s|
  {
    if s != [] && IsTrimmable(s[0]) then
      var r := TrimLeft(s[1..]);
      assert s[..|s| - |r|] == [s[0]] + s[1..][..|s| - 1 - |r|];
      r
    else s
  }

  function TrimRight(s: string): (r: string)
    ensures |r| <= |s| && r == s[..|r|]
    ensures AllTrimmable(s[|r|..])
    ensures r == [] || !IsTrimmable(r[|r| - 1])
    decreases |s|
  {
    if s != [] && IsTrimmable(s[|s| - 1]) then
      var r := TrimRight(s[..|s| - 1]);
      assert s[|r|..] == s[..|s| - 1][|r|..] + [s[|s| - 1]];
      r
    else s
  }

  /** `r` is the slice of `s` at `i`, and everything around it is trimmable. */
  predicate IsTrimOf(s: string, i: int, r: string) {
    0 <= i <= |s| - |r| && s[i..i + |r|] == r && AllTrimmable(s[..i]) && AllTrimmable(s[i + |r|..])
  }

  /**
   * trim(s): `s` without its leading and trailing trimmable characters.
   * The result is a slice of `s`, everything cut off is trimmable, and the
   * result neither starts nor ends with a trimmable character.
   */
  function Trim(s: string): (r: string)
    ensures IsTrimmed(r)
    ensures exists i :: IsTrimOf(s, i, r)
  {
    var l := TrimLeft(s);
    var r := TrimRight(l);
    TrimSlices(s, l, r);
    r
  }

  lemma {:induction false} TrimSlices(s: string, l: string, r: string)
    requires |l| <= |s| && l == s[|s| - |l|..] && AllTrimmable(s[..|s| - |l|])
    requires |r| <= |l| && r == l[..|r|] && AllTrimmable(l[|r|..])
    ensures IsTrimOf(s, |s| - |l|, r)
  {
    var i := |s| - |l|;
    assert s[i..i + |r|] == l[..|r|];
    assert s[i + |r|..] == l[|r|..];
  }

  /** Trim gives back any trimmed text surrounded by trimmable characters. */
  lemma {:induction false} TrimPadded(a: string, r: string, b: string)
    requires AllTrimmable(a) && AllTrimmable(b) && IsTrimmed(r)
    ensures Trim(a + r + b) == r
  {
    var s := a + r + b;
    assert Trim(s) == TrimRight(TrimLeft(s));
    if r == [] {
      assert s == a + b;
      TrimLeftAll(s);
    } else {
      assert s == a + (r + b);
      TrimLeftPadded(a, r + b);
      TrimRightPadded(r, b);
    }
  }

  /** Trimming is idempotent. */
  lemma {:induction false} TrimIdempotent(s: string)
    ensures Trim(Trim(s)) == Trim(s)
  {
    TrimPadded([], Trim(s), []);
    assert [] + Trim(s) + [] == Trim(s);
  }

  lemma {:induction false} TrimLeftPadded(a: string, t: string)
    requires AllTrimmable(a) && t != [] && !IsTrimmable(t[0])
    ensures TrimLeft(a + t) == t
    decreases |a|
  {
    var q := a + t;
    if a == [] {
      assert q == t;
      assert TrimLeft(t) == t;
    } else {
      assert q[0] == a[0] && IsTrimmable(q[0]);
      assert q[1..] == a[1..] + t;
      assert TrimLeft(q) == TrimLeft(q[1..]);
      assert AllTrimmable(a[1..]) by {
        forall i | 0 <= i < |a| - 1 ensures IsTrimmable(a[1..][i]) {
          assert a[1..][i] == a[i + 1];
        }
      }
      TrimLeftPadded(a[1..], t);
    }
  }

  lemma {:induction false} TrimRightPadded(r: string, b: string)
    requires AllTrimmable(b) && r != [] && !IsTrimmable(r[|r| - 1])
    ensures TrimRight(r + b) == r
    decreases |b|
  {
    var q := r + b;
    if b == [] {
      assert q == r;
      assert TrimRight(r) == r;
    } else {
      assert q[|q| - 1] == b[|b| - 1] && IsTrimmable(q[|q| - 1]);
      assert q[..|q| - 1] == r + b[..|b| - 1];
      assert TrimRight(q) == TrimRight(q[..|q| - 1]);
      assert AllTrimmable(b[..|b| - 1]);
      TrimRightPadded(r, b[..|b| - 1]);
    }
  }

  lemma {:induction false} TrimLeftAll(s: string)
    requires AllTrimmable(s)
    ensures TrimLeft(s) == []
    decreases |s|
  {
    if s != [] {
      assert TrimLeft(s) == TrimLeft(s[1..]);
      assert AllTrimmable(s[1..]) by {
        forall i | 0 <= i < |s| - 1 ensures IsTrimmable(s[1..][i]) {
          assert s[1..][i] == s[i + 1];
        }
      }
      TrimLeftAll(s[1..]);
    }
  }

  // ---------------------------------------------------------------------------
  // preg_replace('/^.*\\\\/', '', s)

  /** The text after the last backslash of `s`; all of `s` when it has none. */
  function AfterLastBackslash(s: string): (r: string)
    ensures |r| <= |s| && r == s[|s| - |r|..]
    ensures '\\' !in r
    ensures |r| < |s| ==> s[|s| - |r| - 1] == '\\'
    decreases |s|
  {
    if s == [] || s[|s| - 1] == '\\' then ""
    else
      var r := AfterLastBackslash(s[..|s| - 1]);
      assert s[..|s| - 1][|s| - 1 - |r|..] + [s[|s| - 1]] == s[|s| - 1 - |r|..];
      r + [s[|s| - 1]]
  }

  /** The text before the first newline of `s`; all of `s` when it has none. */
  function FirstLine(s: string): (r: string)
    ensures |r| <= |s| && r == s[..|r|]
    ensures '\n' !in r
    ensures |r| < |s| ==> s[|r|] == '\n'
    decreases |s|
  {
    if s == [] || s[0] == '\n' then ""
    else
      var r := FirstLine(s[1..]);
      assert [s[0]] + s[1..][..|r|] == s[..|r| + 1];
      [s[0]] + r
  }

  /**
   * What preg_replace('/^.*\\\\/', '', s) leaves of `s`. The pattern is
   * anchored at the start, '.' does not match a newline and '.*' is greedy,
   * so it removes everything up to the last backslash of the first line.
   */
  function StripThroughLastBackslash(s: string): (r: string)
    ensures |r| <= |s| && r == s[|s| - |r|..]
    ensures '\n' !in s ==> '\\' !in r
    ensures '\\' !in s ==> r == s
    ensures '\n' !in s && '\\' in s ==> s[|s| - |r| - 1] == '\\'
  {
    var line := FirstLine(s);
    var after := AfterLastBackslash(line);
    StripFacts(s, line, after);
    s[|line| - |after|..]
  }

  lemma {:induction false} StripFacts(s: string, line: string, after: string)
    requires line == FirstLine(s) && after == AfterLastBackslash(line)
    ensures '\n' !in s ==> '\\' !in s[|line| - |after|..]
    ensures '\\' !in s ==> s[|line| - |after|..] == s
    ensures '\n' !in s && '\\' in s ==> s[|line| - |after| - 1] == '\\'
  {
    var k := |line| - |after|;
    BackslashInFirstLine(s);
    if '\n' !in s {
      assert line == s;
      assert s[k..] == after;
    }
    if '\\' !in s {
      assert '\\' !in line;
    }
  }

  lemma {:induction false} BackslashInFirstLine(s: string)
    ensures '\n' !in s ==> FirstLine(s) == s
    ensures '\\' !in s ==> '\\' !in FirstLine(s)
  {
    var line := FirstLine(s);
    if '\\' in line {
      var k :| 0 <= k < |line| && line[k] == '\\';
      assert s[k] == '\\';
    }
  }
}
